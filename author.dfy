/** The author of a message: the host name followed by '/'-separated parts (src/message/author.rs). */
module Authors {
  import opened Wrappers
  import opened Strings

  datatype Author = Author(parts: seq<string>)

  /** The first part of every parsed author: the host name, or "?" when it could not be read. */
  function HostPart(hostname: Option<string>): string
  {
    if hostname.Some? then hostname.value else "?"
  }

  /**
   * `Author::parse`. The host name lookup is a parameter: `Some(name)` when
   * `hostname::get` succeeds, `None` when it fails.
   */
  function Parse(s: string, hostname: Option<string>): (a: Author)
    ensures |a.parts| == 1 + |NonEmpty(Split(s, '/'))|
    ensures a.parts[0] == HostPart(hostname)
    ensures a.parts[1..] == NonEmpty(Split(s, '/'))
    ensures forall i :: 1 <= i < |a.parts| ==> a.parts[i] != "" && '/' !in a.parts[i]
  {
    var segments := NonEmpty(Split(s, '/'));
    NonEmptyKeepsAbsent(Split(s, '/'), '/');
    Author([HostPart(hostname)] + segments)
  }

  /** `Display`: the parts joined with '/'. */
  function ToString(a: Author): string
  {
    Join(a.parts, "/")
  }

  /**
   * The displayed author splits back into its parts when the host name is a
   * non-empty name without '/'.
   */
  lemma {:induction false} ToStringSplitsBack(s: string, hostname: Option<string>)
    requires HostPart(hostname) != "" && '/' !in HostPart(hostname)
    ensures NonEmpty(Split(ToString(Parse(s, hostname)), '/')) == Parse(s, hostname).parts
  {
    var a := Parse(s, hostname);
    SplitJoin(a.parts, '/');
    NonEmptyKeepsNonEmpty(a.parts);
  }
}
