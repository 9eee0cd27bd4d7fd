/**
 * Message filters (src/destination/message_condition_config.rs, and the
 * identical src/destination/message_condition.rs): an optional component the
 * message must fall under and an inclusive range of levels.
 */
module MessageConditions {
  import opened Wrappers
  import opened Components
  import opened Messages

  /** `MessageCondition::new(component, min_level, max_level)`. */
  datatype MessageCondition = MessageCondition(component: Option<Component>, minLevel: Level, maxLevel: Level)

  /** `Default`: no component filter and the whole level range. */
  function Default(): (c: MessageCondition)
    ensures c.component.None? && c.minLevel == Min() && c.maxLevel == Max()
  {
    MessageCondition(None, Min(), Max())
  }

  /** `of_component`: the default with only the component set. */
  function OfComponent(component: Component): (c: MessageCondition)
    ensures c == Default().(component := Some(component))
  {
    MessageCondition(Some(component), Info, SelfError)
  }

  /** `of_min`: the default with only the minimum level set. */
  function OfMin(minLevel: Level): (c: MessageCondition)
    ensures c == Default().(minLevel := minLevel)
  {
    MessageCondition(None, minLevel, SelfError)
  }

  /** `of_max`: the default with only the maximum level set. */
  function OfMax(maxLevel: Level): (c: MessageCondition)
    ensures c == Default().(maxLevel := maxLevel)
  {
    MessageCondition(None, Info, maxLevel)
  }

  /**
   * `matches` does not panic: when both the filter and the message have a
   * component, the child-of test subtracts one from the filter's length.
   */
  predicate CanMatch(c: MessageCondition, m: Message)
  {
    c.component.Some? && m.component.Some? ==> |c.component.value.parts| > 0
  }

  /** `matches`: the component test first (a message without one is rejected), then the level range. */
  predicate Matches(c: MessageCondition, m: Message)
    requires CanMatch(c, m)
  {
    if c.component.Some? && (m.component.None? || !IsChildOf(m.component.value, c.component.value)) then false
    else Le(c.minLevel, m.level) && Le(m.level, c.maxLevel)
  }

  /** Without a component filter, a message matches iff its level is within [min, max]. */
  lemma MatchesWithoutComponent(c: MessageCondition, m: Message)
    requires c.component.None?
    ensures Matches(c, m) <==> Priority(c.minLevel) <= Priority(m.level) <= Priority(c.maxLevel)
  {
  }

  /** With a component filter, a message lacking a component never matches. */
  lemma MissingComponentNeverMatches(c: MessageCondition, m: Message)
    requires c.component.Some? && m.component.None?
    ensures !Matches(c, m)
  {
  }

  /** With a component filter, a match needs the child-of test and the level range. */
  lemma MatchesWithComponent(c: MessageCondition, m: Message)
    requires c.component.Some? && m.component.Some? && CanMatch(c, m)
    ensures Matches(c, m) <==>
      IsChildOf(m.component.value, c.component.value) &&
      Priority(c.minLevel) <= Priority(m.level) <= Priority(c.maxLevel)
  {
  }

  /** The default condition matches every message. */
  lemma DefaultMatchesAll(m: Message)
    ensures CanMatch(Default(), m) && Matches(Default(), m)
  {
  }

  /** `of_min(Warn)` rejects Info and accepts Warn and Error. */
  lemma OfMinWarn(m: Message)
    ensures m.level == Info ==> !Matches(OfMin(Warn), m)
    ensures m.level == Warn || m.level == Error ==> Matches(OfMin(Warn), m)
  {
  }

  /** `of_max(Warn)` accepts Info and Warn and rejects Error. */
  lemma OfMaxWarn(m: Message)
    ensures m.level == Info || m.level == Warn ==> Matches(OfMax(Warn), m)
    ensures m.level == Error ==> !Matches(OfMax(Warn), m)
  {
  }

  /**
   * The documented examples of `of_component`, on parsed components: the filter
   * "database/backup" matches "database/backup", "database/backup/table1" and
   * "database/backup/table2", and rejects "fish_and_chip_shop/fries".
   */
  lemma OfComponentExamples(m: Message)
    ensures m.component == Some(Component(["database", "backup"])) ==>
      Matches(OfComponent(Component(["database", "backup"])), m)
    ensures m.component == Some(Component(["database", "backup", "table1"])) ==>
      Matches(OfComponent(Component(["database", "backup"])), m)
    ensures m.component == Some(Component(["database", "backup", "table2"])) ==>
      Matches(OfComponent(Component(["database", "backup"])), m)
    ensures m.component == Some(Component(["fish_and_chip_shop", "fries"])) ==>
      !Matches(OfComponent(Component(["database", "backup"])), m)
  {
    var filter := ["database", "backup"];
    assert filter[..1] == ["database"];
    assert ["database", "backup", "table1"][..1] == ["database"];
    assert ["database", "backup", "table2"][..1] == ["database"];
    assert "fish_and_chip_shop"[0] != "database"[0];
    assert ["fish_and_chip_shop", "fries"][..1] == ["fish_and_chip_shop"];
    assert ["fish_and_chip_shop"][0] != ["database"][0];
  }

  /**
   * Where the code departs from its documentation: the filter "database/backup"
   * also matches a message from "database/uptime", because only the filter's
   * first part is compared.
   */
  lemma SiblingMatches(m: Message)
    requires m.component == Some(Component(["database", "uptime"]))
    ensures Matches(OfComponent(Component(["database", "backup"])), m)
  {
    assert ["database", "uptime"][..1] == ["database"] == ["database", "backup"][..1];
  }

  /**
   * `matches` as documented: the message's component must lie under the
   * filter's (the filter's parts a prefix of the message's), then the level
   * range. Unlike the code, this never panics.
   */
  predicate MatchesIntended(c: MessageCondition, m: Message)
  {
    if c.component.Some? && (m.component.None? || !IsPrefixOf(c.component.value, m.component.value)) then false
    else Le(c.minLevel, m.level) && Le(m.level, c.maxLevel)
  }

  /** The intended test accepts only what the coded one accepts, and agrees with it when no component filter is set. */
  lemma IntendedIsStricter(c: MessageCondition, m: Message)
    requires CanMatch(c, m)
    ensures MatchesIntended(c, m) ==> Matches(c, m)
    ensures c.component.None? ==> (MatchesIntended(c, m) <==> Matches(c, m))
  {
    if MatchesIntended(c, m) && c.component.Some? {
      PrefixIsChild(m.component.value, c.component.value);
    }
  }

  /**
   * Every case of the `of_component` documentation holds for the intended
   * test, the rejection of "database/uptime" included.
   */
  lemma OfComponentIntended(m: Message)
    ensures m.component == Some(Component(["database", "backup"])) ==>
      MatchesIntended(OfComponent(Component(["database", "backup"])), m)
    ensures m.component == Some(Component(["database", "backup", "table1"])) ==>
      MatchesIntended(OfComponent(Component(["database", "backup"])), m)
    ensures m.component == Some(Component(["database", "backup", "table2"])) ==>
      MatchesIntended(OfComponent(Component(["database", "backup"])), m)
    ensures m.component == Some(Component(["database", "uptime"])) ==>
      !MatchesIntended(OfComponent(Component(["database", "backup"])), m)
    ensures m.component == Some(Component(["fish_and_chip_shop", "fries"])) ==>
      !MatchesIntended(OfComponent(Component(["database", "backup"])), m)
  {
    var filter := ["database", "backup"];
    assert filter[..2] == filter;
    assert ["database", "backup", "table1"][..2] == filter;
    assert ["database", "backup", "table2"][..2] == filter;
    assert "uptime"[0] != "backup"[0];
    assert ["database", "uptime"][..2] == ["database", "uptime"];
    assert "fish_and_chip_shop"[0] != "database"[0];
    assert ["fish_and_chip_shop", "fries"][..2] == ["fish_and_chip_shop", "fries"];
  }

  /** `MessageNotifyConditionConfigEntry<T>`: who to notify when the condition matches. */
  datatype NotifyEntry<T> = NotifyEntry(condition: MessageCondition, notify: T)
  {
    /** `matches` delegates to the condition. */
    predicate EntryMatches(m: Message)
      requires CanMatch(condition, m)
    {
      Matches(condition, m)
    }

    /** `get_notify`. */
    function GetNotify(): T
    {
      notify
    }
  }

  /** An entry matches exactly when its condition does, and reports the target it was built with. */
  lemma EntryDelegates<T>(c: MessageCondition, target: T, m: Message)
    requires CanMatch(c, m)
    ensures NotifyEntry(c, target).EntryMatches(m) == Matches(c, m)
    ensures NotifyEntry(c, target).GetNotify() == target
  {
  }
}
