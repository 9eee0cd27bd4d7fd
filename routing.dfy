/**
 * Routing vocabulary: how a destination takes part in routing
 * (src/destination/routed_destination.rs) and the routing information
 * attached to it (`RoutingInfo` in src/message_router.rs).
 */
module Routing {
  import opened Wrappers
  import opened Messages
  import opened MessageConditions

  datatype MessageRoutingBehaviour = Root | Drain | Additive

  /** `always_send_messages`: Root and Additive destinations get every applicable message. */
  predicate AlwaysSendMessages(b: MessageRoutingBehaviour)
  {
    match b
    case Root => true
    case Additive => true
    case Drain => false
  }

  /** `always_receives_errors`: only Root destinations receive failure reports. */
  predicate AlwaysReceivesErrors(b: MessageRoutingBehaviour)
  {
    match b
    case Root => true
    case Drain => false
    case Additive => false
  }

  /** `Default for MessageRoutingBehaviour`. */
  function DefaultBehaviour(): MessageRoutingBehaviour
  {
    Additive
  }

  /** Drain is the one behaviour that is not sent every message; Root the one that receives errors. */
  lemma BehaviourTable(b: MessageRoutingBehaviour)
    ensures AlwaysSendMessages(b) <==> b != Drain
    ensures AlwaysReceivesErrors(b) <==> b == Root
    ensures AlwaysReceivesErrors(b) ==> AlwaysSendMessages(b)
    ensures DefaultBehaviour() == Additive
  {
  }

  /** `RoutingInfo`: a behaviour and an optional condition on the messages it applies to. */
  datatype RoutingInfo = RoutingInfo(behaviour: MessageRoutingBehaviour, appliesTo: Option<MessageCondition>)

  /** `RoutingInfo::of`: the given behaviour, applying to every message. */
  function Of(b: MessageRoutingBehaviour): (info: RoutingInfo)
    ensures info.behaviour == b && info.appliesTo.None?
  {
    RoutingInfo(b, None)
  }

  /** `RoutingInfo::root()`: a Root destination with no condition. */
  function RootInfo(): (info: RoutingInfo)
    ensures info.behaviour == Root && info.appliesTo.None?
  {
    Of(Root)
  }

  /** `applies_to` cannot panic: its condition, if any, can be evaluated on `m`. */
  predicate CanApply(info: RoutingInfo, m: Message)
  {
    info.appliesTo.Some? ==> CanMatch(info.appliesTo.value, m)
  }

  /** `applies_to`: every message when there is no condition, else the condition's `matches`. */
  predicate AppliesTo(info: RoutingInfo, m: Message)
    requires CanApply(info, m)
  {
    match info.appliesTo
    case None => true
    case Some(filter) => Matches(filter, m)
  }

  /** A routing info without a condition applies to every message; one with a condition applies as it matches. */
  lemma AppliesToCases(info: RoutingInfo, m: Message)
    requires CanApply(info, m)
    ensures info.appliesTo.None? ==> AppliesTo(info, m)
    ensures info.appliesTo.Some? ==> (AppliesTo(info, m) <==> Matches(info.appliesTo.value, m))
    ensures AppliesTo(Of(info.behaviour).(appliesTo := Some(Default())), m)
  {
    DefaultMatchesAll(m);
  }

  /**
   * `RoutedDestinationBase`: an id for error reports and the routing info.
   * The wrapped destination itself is not part of this record; its `send` is
   * the oracle given to the router.
   */
  datatype RoutedDestination = RoutedDestination(id: string, info: RoutingInfo)
  {
    /** `is_root`. */
    predicate IsRoot()
    {
      info.behaviour == Root
    }

    /** `get_routing_type`. */
    function RoutingType(): MessageRoutingBehaviour
    {
      info.behaviour
    }

    /** `should_receive`. */
    predicate ShouldReceive(m: Message)
      requires CanApply(info, m)
    {
      AppliesTo(info, m)
    }
  }

  /** A destination is root exactly when it always receives errors, and receives what its info applies to. */
  lemma DestinationDefaults(id: string, info: RoutingInfo, m: Message)
    requires CanApply(info, m)
    ensures RoutedDestination(id, info).IsRoot() <==> AlwaysReceivesErrors(info.behaviour)
    ensures RoutedDestination(id, info).ShouldReceive(m) == AppliesTo(info, m)
    ensures RoutedDestination(id, info).id == id && RoutedDestination(id, info).info == info
  {
  }
}
