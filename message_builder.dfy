/**
 * The message builder (src/message/builder.rs): setters that overwrite one
 * field each, and `build`/`build_clone`, which fall back to the clock when no
 * timestamp was set. The clock reading is a parameter `now`, and so is the
 * base author (the host name lookup of the source).
 */
module MessageBuilders {
  import opened Wrappers
  import opened Components
  import opened Authors
  import opened FormattedDetail
  import opened Messages
  import DetailBuilders

  class MessageBuilder {
    var level: Level
    var title: Option<string>
    var detail: MessageDetail
    var component: Option<Component>
    var author: Author
    var timestampMillis: Option<int>

    /** `new`: the default level and body, no title, component or timestamp, and the base author. */
    constructor New(base: Author)
      ensures level == DefaultLevel() && title == None && detail == DefaultDetail()
      ensures component == None && author == base && timestampMillis == None
    {
      level := DefaultLevel();
      title := None;
      detail := DefaultDetail();
      component := None;
      author := base;
      timestampMillis := None;
    }

    /**
     * `body(apply)`: a fresh detail builder receives the calls the closure
     * makes, and what it builds replaces the body.
     */
    method Body(calls: seq<DetailBuilders.DetailCall>)
      modifies this
      ensures detail == Formatted(FormattedMessageDetail(
        DetailBuilders.FinalRaw(DetailBuilders.RawNotAvailable, calls), DetailBuilders.AddedComponents(calls)))
      ensures level == old(level) && title == old(title) && component == old(component)
      ensures author == old(author) && timestampMillis == old(timestampMillis)
    {
      var builder := new DetailBuilders.MessageDetailBuilder.New();
      builder.Apply(calls);
      detail := builder.Build();
    }

    /** `level(l)`. */
    method SetLevel(l: Level)
      modifies this
      ensures level == l
      ensures title == old(title) && detail == old(detail) && component == old(component)
      ensures author == old(author) && timestampMillis == old(timestampMillis)
    {
      level := l;
    }

    /** `title(t)`. */
    method SetTitle(t: string)
      modifies this
      ensures title == Some(t)
      ensures level == old(level) && detail == old(detail) && component == old(component)
      ensures author == old(author) && timestampMillis == old(timestampMillis)
    {
      title := Some(t);
    }

    /** `component(c)`. */
    method SetComponent(c: Component)
      modifies this
      ensures component == Some(c)
      ensures level == old(level) && title == old(title) && detail == old(detail)
      ensures author == old(author) && timestampMillis == old(timestampMillis)
    {
      component := Some(c);
    }

    /** `timestamp(t)`. */
    method SetTimestamp(t: int)
      modifies this
      ensures timestampMillis == Some(t)
      ensures level == old(level) && title == old(title) && detail == old(detail)
      ensures component == old(component) && author == old(author)
    {
      timestampMillis := Some(t);
    }

    /**
     * `build_clone` (and `build`, which gives the same message and then drops
     * the builder): the fields copied as they are, the timestamp set, or else
     * the clock's reading.
     */
    method BuildClone(now: int) returns (m: Message)
      ensures m.level == level && m.title == title && m.detail == detail
      ensures m.component == component && m.author == author
      ensures timestampMillis.Some? ==> m.timestampMillis == timestampMillis.value
      ensures timestampMillis.None? ==> m.timestampMillis == now
    {
      var stamp := now;
      if timestampMillis.Some? {
        stamp := timestampMillis.value;
      }
      m := Message(level, title, detail, component, author, stamp);
    }
  }

  /**
   * With a timestamp set, two builds of the same builder give equal messages,
   * whatever the clock says.
   */
  method BuildTwice(b: MessageBuilder, now1: int, now2: int) returns (m1: Message, m2: Message)
    requires b.timestampMillis.Some?
    ensures m1 == m2
    ensures m1.timestampMillis == b.timestampMillis.value
  {
    m1 := b.BuildClone(now1);
    m2 := b.BuildClone(now2);
  }

  /**
   * A builder made with `new` and given a level, a title and a timestamp
   * builds a message with those, the default body, no component and the
   * base author.
   */
  method BuilderExample(base: Author, l: Level, t: string, stamp: int, now: int) returns (m: Message)
    ensures m == Message(l, Some(t), Raw(""), None, base, stamp)
  {
    var b := new MessageBuilder.New(base);
    b.SetLevel(l);
    b.SetTitle(t);
    b.SetTimestamp(stamp);
    m := b.BuildClone(now);
  }
}
