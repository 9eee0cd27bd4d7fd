/**
 * Messages (src/message/mod.rs): severity levels ordered by an explicit
 * priority, raw or formatted bodies, and the message record itself.
 */
module Messages {
  import opened Wrappers
  import opened Components
  import opened Authors
  import opened FormattedDetail

  datatype Level = Info | Warn | Error | SelfInfo | SelfError

  /** `get_priority`: the rank used by every comparison of levels. */
  function Priority(l: Level): (p: nat)
    ensures 1 <= p <= 5
    ensures l == Info ==> p == 1
    ensures l == SelfInfo ==> p == 2
    ensures l == Warn ==> p == 3
    ensures l == Error ==> p == 4
    ensures l == SelfError ==> p == 5
  {
    match l
    case Info => 1
    case SelfInfo => 2
    case Warn => 3
    case Error => 4
    case SelfError => 5
  }

  datatype Ordering = Less | Equal | Greater

  /** `Ord::cmp`: comparison of the priorities. */
  function Cmp(a: Level, b: Level): (r: Ordering)
    ensures r == Less <==> Priority(a) < Priority(b)
    ensures r == Greater <==> Priority(a) > Priority(b)
    ensures r == Equal <==> a == b
  {
    if Priority(a) < Priority(b) then Less
    else if Priority(a) > Priority(b) then Greater
    else (PriorityInjective(a, b); Equal)
  }

  /** `a <= b` on levels (derived from `cmp` through `PartialOrd`). */
  predicate Le(a: Level, b: Level)
  {
    Cmp(a, b) != Greater
  }

  /** `Level::min()`. */
  function Min(): Level { Info }

  /** `Level::max()`. */
  function Max(): Level { SelfError }

  /** `Default for Level`. */
  function DefaultLevel(): Level { Info }

  /** The `Debug` rendering of a level: its variant name. */
  function LevelName(l: Level): (name: string)
    ensures l == Info ==> name == "Info"
    ensures l == Warn ==> name == "Warn"
    ensures l == Error ==> name == "Error"
    ensures l == SelfInfo ==> name == "SelfInfo"
    ensures l == SelfError ==> name == "SelfError"
  {
    match l
    case Info => "Info"
    case Warn => "Warn"
    case Error => "Error"
    case SelfInfo => "SelfInfo"
    case SelfError => "SelfError"
  }

  /** No two levels share a priority. */
  lemma PriorityInjective(a: Level, b: Level)
    ensures Priority(a) == Priority(b) <==> a == b
  {
  }

  /** The priorities are Info 1, SelfInfo 2, Warn 3, Error 4, SelfError 5, so the levels form a chain. */
  lemma LevelChain()
    ensures Cmp(Info, SelfInfo) == Less && Cmp(SelfInfo, Warn) == Less
    ensures Cmp(Warn, Error) == Less && Cmp(Error, SelfError) == Less
  {
  }

  /** `<=` on levels is a total order. */
  lemma LeTotalOrder(a: Level, b: Level, c: Level)
    ensures Le(a, a)
    ensures Le(a, b) && Le(b, a) ==> a == b
    ensures Le(a, b) && Le(b, c) ==> Le(a, c)
    ensures Le(a, b) || Le(b, a)
  {
  }

  /** Every level lies between `min()` and `max()`. */
  lemma MinMaxBound(l: Level)
    ensures Le(Min(), l) && Le(l, Max())
  {
  }

  /** `Level` is `Info` by default, the lowest level. */
  lemma DefaultIsMin()
    ensures DefaultLevel() == Min()
  {
  }

  // ---------------------------------------------------------------------------
  // Message bodies and messages.

  datatype MessageDetail = Raw(text: string) | Formatted(formatted: FormattedMessageDetail)
  {
    /** `raw()`: the raw text, also for a formatted body. */
    function RawText(): string
    {
      match this
      case Raw(text) => text
      case Formatted(f) => f.raw
    }

    /** `has_formatting()`. */
    predicate HasFormatting()
    {
      Formatted?
    }
  }

  /** `Default for MessageDetail`: an empty raw body. */
  function DefaultDetail(): (d: MessageDetail)
    ensures !d.HasFormatting() && d.RawText() == ""
  {
    Raw("")
  }

  /** `Message::new`; the getters are the fields. The timestamp is an `i64` in the source. */
  datatype Message = Message(
    level: Level,
    title: Option<string>,
    detail: MessageDetail,
    component: Option<Component>,
    author: Author,
    timestampMillis: int)

  /** A formatted body keeps its raw text reachable: `raw()` of a parsed body is the input. */
  lemma ParsedBodyKeepsRaw(s: string)
    ensures Formatted(FormattedOf(s)).RawText() == s
    ensures Formatted(FormattedOf(s)).HasFormatting()
  {
    FormattedOfIsReference(s);
  }
}
