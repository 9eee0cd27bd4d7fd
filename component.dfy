/**
 * Hierarchical component tags such as "database/backup" (src/message/component.rs):
 * parsing from a string, rendering back, and the child-of test used by message filters.
 */
module Components {
  import opened Strings

  datatype Component = Component(parts: seq<string>)

  /** What parsing can produce: every part non-empty and free of '/'. */
  predicate WellFormed(c: Component)
  {
    forall i :: 0 <= i < |c.parts| ==> c.parts[i] != "" && '/' !in c.parts[i]
  }

  /** `Component::from(&str)`: split on '/', drop empty pieces. */
  function Parse(s: string): (c: Component)
    ensures WellFormed(c)
    ensures |c.parts| <= |Split(s, '/')|
    ensures forall x :: x in c.parts <==> x in Split(s, '/') && x != ""
  {
    NonEmptyKeepsAbsent(Split(s, '/'), '/');
    NonEmptyMembers(Split(s, '/'));
    Component(NonEmpty(Split(s, '/')))
  }

  /** `Display` and `Serialize`: the parts joined with '/'. */
  function ToString(c: Component): string
  {
    Join(c.parts, "/")
  }

  /**
   * `is_child_of` as the source writes it: a parent with more parts than the
   * child is rejected, otherwise the first |parent| - 1 parts are compared.
   * The subtraction underflows (a panic) for a parent with no parts, so such a
   * parent is excluded here.
   */
  predicate IsChildOf(child: Component, parent: Component)
    requires |parent.parts| > 0
  {
    if |parent.parts| > |child.parts| then false
    else
      var l := |parent.parts| - 1;
      child.parts[..l] == parent.parts[..l]
  }

  /** The relation the documentation describes: the parent's parts are a prefix of the child's. */
  predicate IsPrefixOf(parent: Component, child: Component)
  {
    |parent.parts| <= |child.parts| && child.parts[..|parent.parts|] == parent.parts
  }

  // ---------------------------------------------------------------------------
  // Parsing and rendering.

  /** Parsing a '/'-join of slash-free pieces keeps exactly the non-empty pieces. */
  lemma ParseOfJoin(pieces: seq<string>)
    requires |pieces| > 0
    requires forall i :: 0 <= i < |pieces| ==> '/' !in pieces[i]
    ensures Parse(Join(pieces, "/")) == Component(NonEmpty(pieces))
  {
    SplitJoin(pieces, '/');
  }

  /** Serialising then deserialising a well-formed component gives it back. */
  lemma ParseToString(c: Component)
    requires WellFormed(c)
    ensures Parse(ToString(c)) == c
  {
    if c.parts == [] {
      assert Split("", '/') == [""];
    } else {
      ParseOfJoin(c.parts);
      NonEmptyKeepsNonEmpty(c.parts);
    }
  }

  /** Every parsed component survives a serialise/deserialise round trip. */
  lemma ParseRoundTrip(s: string)
    ensures Parse(ToString(Parse(s))) == Parse(s)
  {
    ParseToString(Parse(s));
  }

  /** A trailing '/' makes no difference: "root/sub/" parses like "root/sub". */
  lemma TrailingSlashIgnored()
    ensures Parse("root/sub/") == Component(["root", "sub"])
  {
    var pieces := ["root", "sub", ""];
    assert pieces[1..] == ["sub", ""] && pieces[1..][1..] == [""];
    assert Join(pieces, "/") == "root" + "/" + ("sub" + "/" + "");
    assert "root/sub/" == "root" + "/" + ("sub" + "/" + "");
    ParseOfJoin(pieces);
    assert NonEmpty(pieces) == ["root", "sub"];
  }

  /** Leading and repeated separators are dropped too: "//root//sub" parses to ["root", "sub"]. */
  lemma EmptyPiecesDropped()
    ensures Parse("//root//sub") == Component(["root", "sub"])
  {
    var pieces := ["", "", "root", "", "sub"];
    assert Join(pieces, "/") == "//root//sub";
    ParseOfJoin(pieces);
    assert NonEmpty(pieces) == ["root", "sub"];
  }

  // ---------------------------------------------------------------------------
  // The child-of test.

  lemma IsChildOfReflexive(c: Component)
    requires |c.parts| > 0
    ensures IsChildOf(c, c)
  {
  }

  lemma IsChildOfShorterChild(child: Component, parent: Component)
    requires |parent.parts| > |child.parts|
    ensures !IsChildOf(child, parent)
  {
  }

  /** Only the first |parent| - 1 parts matter: the parent's last part is never compared. */
  lemma IsChildOfIgnoresLastPart(child: Component, parent: Component, last: string)
    requires |parent.parts| > 0
    ensures IsChildOf(child, parent) == IsChildOf(child, Component(parent.parts[..|parent.parts| - 1] + [last]))
  {
    var other := Component(parent.parts[..|parent.parts| - 1] + [last]);
    assert other.parts[..|parent.parts| - 1] == parent.parts[..|parent.parts| - 1];
  }

  /** The documented prefix relation implies the coded one ... */
  lemma PrefixIsChild(child: Component, parent: Component)
    requires |parent.parts| > 0
    requires IsPrefixOf(parent, child)
    ensures IsChildOf(child, parent)
  {
    var l := |parent.parts| - 1;
    assert child.parts[..l] == child.parts[..|parent.parts|][..l];
  }

  /**
   * ... but not the other way round: the code accepts ["database", "uptime"]
   * (what "database/uptime" parses to) as a child of ["database", "backup"],
   * ["web"] as a child of ["db"], and ["root", "x"] as a child of ["root", "sub"].
   */
  lemma ChildIsNotAlwaysPrefix()
    ensures IsChildOf(Component(["database", "uptime"]), Component(["database", "backup"]))
    ensures !IsPrefixOf(Component(["database", "backup"]), Component(["database", "uptime"]))
    ensures IsChildOf(Component(["web"]), Component(["db"])) && !IsPrefixOf(Component(["db"]), Component(["web"]))
  {
    assert ["database", "uptime"][..1] == ["database"] == ["database", "backup"][..1];
    assert "uptime"[0] != "backup"[0];
    assert ["database", "uptime"][..2] == ["database", "uptime"];
    assert "web"[0] != "db"[0];
    assert ["web"][..1] == ["web"];
  }

  /**
   * The child-of relation as evidently intended, `IsPrefixOf`, orders
   * components as a hierarchy: reflexive, antisymmetric and transitive, and
   * defined for an empty parent too.
   */
  lemma IntendedChildOfIsHierarchy(a: Component, b: Component, c: Component)
    ensures IsPrefixOf(a, a)
    ensures IsPrefixOf(a, b) && IsPrefixOf(b, a) ==> a == b
    ensures IsPrefixOf(a, b) && IsPrefixOf(b, c) ==> IsPrefixOf(a, c)
  {
    assert a.parts[..|a.parts|] == a.parts;
    if IsPrefixOf(a, b) && IsPrefixOf(b, c) {
      assert c.parts[..|a.parts|] == c.parts[..|b.parts|][..|a.parts|];
    }
  }

  /**
   * The intended relation passes the test in src/message/component.rs, and
   * rejects "database/uptime" under "database/backup".
   */
  lemma IntendedChildOfExamples()
    ensures IsPrefixOf(Component(["root"]), Component(["root", "sub", "block"]))
    ensures IsPrefixOf(Component(["root", "sub"]), Component(["root", "sub", "block"]))
    ensures !IsPrefixOf(Component(["scraperpi", "services"]), Component(["scraperpi"]))
    ensures !IsPrefixOf(Component(["database", "backup"]), Component(["database", "uptime"]))
  {
    assert ["root", "sub", "block"][..1] == ["root"];
    assert ["root", "sub", "block"][..2] == ["root", "sub"];
    assert "uptime"[0] != "backup"[0];
    assert ["database", "uptime"][..2] == ["database", "uptime"];
  }

  /** Any single-part parent accepts every non-empty child. */
  lemma SinglePartParentAcceptsAll(child: Component, parent: Component)
    requires |parent.parts| == 1 && |child.parts| >= 1
    ensures IsChildOf(child, parent)
  {
  }

  /**
   * The cases of the test in src/message/component.rs, on the parsed forms
   * of "root/sub/block", "root", "root/sub", "root/sub/", "scraperpi" and
   * "scraperpi/services".
   */
  lemma ChildOfExamples()
    ensures IsChildOf(Component(["root", "sub", "block"]), Component(["root"]))
    ensures IsChildOf(Component(["root", "sub", "block"]), Component(["root", "sub"]))
    ensures !IsChildOf(Component(["scraperpi"]), Component(["scraperpi", "services"]))
  {
    assert ["root", "sub", "block"][..1] == ["root"] == ["root", "sub"][..1];
  }

  /** The literals of the examples above parse as stated there. */
  lemma ExampleParses()
    ensures Parse("database/uptime") == Component(["database", "uptime"])
  {
    assert "database/uptime" == "database" + "/" + "uptime";
    ParsesTo2("database", "uptime");
  }

  // Helpers for literal examples: a string spelled as the '/'-join of a few
  // non-empty slash-free parts parses to exactly those parts.

  lemma ParsesTo1(a: string)
    requires a != "" && '/' !in a
    ensures Parse(a) == Component([a])
  {
    assert Join([a], "/") == a;
    ParseToString(Component([a]));
  }

  lemma ParsesTo2(a: string, b: string)
    requires a != "" && '/' !in a && b != "" && '/' !in b
    ensures Parse(a + "/" + b) == Component([a, b])
  {
    assert [a, b][1..] == [b];
    assert Join([a, b], "/") == a + "/" + b;
    ParseToString(Component([a, b]));
  }

  lemma ParsesTo3(a: string, b: string, c: string)
    requires a != "" && '/' !in a && b != "" && '/' !in b && c != "" && '/' !in c
    ensures Parse(a + "/" + b + "/" + c) == Component([a, b, c])
  {
    assert [a, b, c][1..] == [b, c] && [b, c][1..] == [c];
    assert Join([b, c], "/") == b + "/" + c;
    assert Join([a, b, c], "/") == a + "/" + (b + "/" + c);
    assert a + "/" + (b + "/" + c) == a + "/" + b + "/" + c;
    ParseToString(Component([a, b, c]));
  }
}
