/**
 * The older notification entry (src/destination/notification_config.rs):
 * it stores a component but filters on the level range only.
 */
module NotificationConfig {
  import opened Wrappers
  import opened Components
  import opened Messages

  datatype NotificationConfigEntry<T> = NotificationConfigEntry(
    component: Option<Component>,
    minLevel: Level,
    maxLevel: Level,
    notify: T)
  {
    /** `matches`: the level lies within [min_level, max_level]. */
    predicate EntryMatches(m: Message)
    {
      Le(minLevel, m.level) && Le(m.level, maxLevel)
    }

    /** `get_notify`. */
    function GetNotify(): T
    {
      notify
    }
  }

  /** Matching is the level range, inclusive at both ends. */
  lemma MatchesIsLevelRange<T>(e: NotificationConfigEntry<T>, m: Message)
    ensures e.EntryMatches(m) <==> Priority(e.minLevel) <= Priority(m.level) <= Priority(e.maxLevel)
  {
  }

  /** The stored component is never consulted. */
  lemma ComponentIgnored<T>(e: NotificationConfigEntry<T>, c: Option<Component>, m: Message)
    ensures e.(component := c).EntryMatches(m) == e.EntryMatches(m)
  {
  }

  /** With the default `Level::min` and `Level::max` bounds, every message matches. */
  lemma DefaultBoundsMatchAll<T>(e: NotificationConfigEntry<T>, m: Message)
    requires e.minLevel == Min() && e.maxLevel == Max()
    ensures e.EntryMatches(m)
  {
  }

  /** `get_notify` returns the stored target. */
  lemma GetNotifyStored<T>(c: Option<Component>, lo: Level, hi: Level, target: T)
    ensures NotificationConfigEntry(c, lo, hi, target).GetNotify() == target
  {
  }
}
