/**
 * How a crate found on crates.io is shown in chat: a first line with its
 * name, its newest version and its description, and a second line with its
 * documentation and repository links.
 */
module CrateFormat {
  import opened Wrappers
  import opened Text

  datatype Crate = Crate(
    name: string,
    maxVersion: string,
    description: Option<string>,
    documentation: Option<string>,
    repository: Option<string>,
    exactMatch: bool)

  const Bar: string := " | "

  /** `Crate::format`: the first line, then the second line built up piece by piece. */
  method Format(c: Crate) returns (first: string, second: string)
    ensures c.description.Some? ==> first == c.name + " = \"" + c.maxVersion + "\"" + Bar + c.description.value
    ensures c.description.None? ==> first == c.name + " = " + c.maxVersion
    ensures second == [] <==> c.documentation.None? && c.repository.None?
    ensures c.documentation.Some? && c.repository.None? ==> second == "docs: " + c.documentation.value
    ensures c.documentation.None? && c.repository.Some? ==> second == "repo: " + c.repository.value
    ensures c.documentation.Some? && c.repository.Some? ==>
      second == "docs: " + c.documentation.value + Bar + "repo: " + c.repository.value
  {
    match c.description {
      case Some(desc) => first := c.name + " = \"" + c.maxVersion + "\"" + Bar + desc;
      case None => first := c.name + " = " + c.maxVersion;
    }
    second := [];
    if c.documentation.Some? {
      second := second + "docs: " + c.documentation.value;
    }
    if c.repository.Some? {
      if second != [] {
        second := second + Bar;
      }
      second := second + "repo: " + c.repository.value;
    }
  }

  /** The links of a crate, labelled, in the order they are shown. */
  function Links(c: Crate): seq<string> {
    (if c.documentation.Some? then ["docs: " + c.documentation.value] else []) +
    (if c.repository.Some? then ["repo: " + c.repository.value] else [])
  }

  /** Joining labelled links with the bar. */
  function Barred(items: seq<string>): string {
    if items == [] then []
    else if |items| == 1 then items[0]
    else items[0] + Bar + Barred(items[1..])
  }

  /** The second line is the crate's labelled links separated by bars, whichever are present. */
  method SecondLineIsLinks(c: Crate) returns (second: string)
    ensures second == Barred(Links(c))
  {
    var first;
    first, second := Format(c);
    if c.documentation.Some? && c.repository.Some? {
      assert Links(c)[1..] == ["repo: " + c.repository.value];
    }
  }

  /**
   * Both shapes of the first line open with the name and ` = `; so without
   * a space in the name, the name is the line's first word.
   */
  method FirstWordIsName(c: Crate) returns (word: string)
    requires ' ' !in c.name
    ensures word == c.name
  {
    var first, second := Format(c);
    var rest := first[|c.name| + 1..];
    assert first == c.name + [' '] + rest;
    SplitOnceOf(c.name, ' ', rest);
    word := SplitOnce(first, ' ').value.0;
  }
}
