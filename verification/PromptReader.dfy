/**
 A reader of prompt data blocks that knows only the tag syntax: attributes are read
 by position, and the closing tag is the one that carries the boundary just read.
 */
module PromptReader {
  import opened Search
  import opened Wrappers

  /** A blank, a name, an equals sign, and a value between quotes. */
  function Attribute(s: string): (r: Option<((string, string), string)>)
    ensures r.Some? ==> |r.value.1| < |s|
  {
    if s == "" || s[0] != ' ' then None
    else
      var eq := IndexOf(s, '=');
      if eq.None? || eq.value + 1 == |s| || s[eq.value + 1] != '\"' then None
      else
        var tail := s[eq.value + 2..];
        var quote := IndexOf(tail, '\"');
        if quote.None? then None
        else Some(((s[1..eq.value], tail[..quote.value]), tail[quote.value + 1..]))
  }

  /** As many attributes as follow one another. */
  function Attributes(s: string): (r: (seq<(string, string)>, string))
  {
    var first := Attribute(s);
    if first.None? then ([], s)
    else
      var more := Attributes(first.value.1);
      ([first.value.0] + more.0, more.1)
  }

  function Tag(s: string): (r: Option<(seq<(string, string)>, string)>)
  {
    if !("<loupe-data" <= s) then None
    else
      var (attributes, rest) := Attributes(s[11..]);
      if ">\n" <= rest then Some((attributes, rest[2..])) else None
  }

  datatype Block = Block(field: string, source: string, boundary: string, payload: string)

  /** One block off the front, and what follows it. */
  function ReadBlock(s: string): (r: Option<(Block, string)>)
  {
    var tag := Tag(s);
    if tag.None? then None
    else
      var (attributes, rest) := tag.value;
      if |attributes| != 3 || attributes[0].0 != "field" || attributes[1].0 != "source"
         || attributes[2].0 != "boundary"
      then None
      else
        var closing := "\n</loupe-data boundary=\"" + attributes[2].1 + "\">\n";
        var at := FirstFrom(rest, closing, 0);
        if at.None? then None
        else Some((Block(attributes[0].1, attributes[1].1, attributes[2].1, rest[..at.value]),
                   rest[at.value + |closing|..]))
  }

  function Spelled(name: string, value: string): (s: string)
  {
    " " + name + "=\"" + value + "\""
  }

  lemma AttributeReads(name: string, value: string, rest: string)
    requires '=' !in name && '\"' !in value
    ensures Attribute(Spelled(name, value) + rest) == Some(((name, value), rest))
  {
    hide IndexOf;
    var s := Spelled(name, value) + rest;
    var tail := value + ['\"'] + rest;
    IndexOfFirst(" " + name, '=', "\"" + tail);
    assert s == (" " + name) + ['='] + ("\"" + tail);
    assert s[1..|name| + 1] == name && s[|name| + 3..] == tail;
    IndexOfFirst(value, '\"', rest);
    assert tail[..|value|] == value && tail[|value| + 1..] == rest;
  }

  lemma NoAttribute(rest: string)
    ensures Attributes(">\n" + rest) == ([], ">\n" + rest)
  {
  }

  lemma AttributesRead(name: string, value: string, rest: string)
    requires '=' !in name && '\"' !in value
    ensures Attributes(Spelled(name, value) + rest)
            == ([(name, value)] + Attributes(rest).0, Attributes(rest).1)
  {
    hide Attribute, Spelled;
    AttributeReads(name, value, rest);
  }

  lemma TagReads(field: string, source: string, boundary: string, rest: string)
    requires '\"' !in field && '\"' !in source && '\"' !in boundary
    ensures Tag("<loupe-data" + (Spelled("field", field) + (Spelled("source", source)
                + (Spelled("boundary", boundary) + (">\n" + rest)))))
            == Some(([("field", field), ("source", source), ("boundary", boundary)], rest))
  {
    hide Attributes, Spelled;
    var c := Spelled("boundary", boundary) + (">\n" + rest);
    var b := Spelled("source", source) + c;
    var a := Spelled("field", field) + b;
    NoAttribute(rest);
    AttributesRead("boundary", boundary, ">\n" + rest);
    AttributesRead("source", source, c);
    AttributesRead("field", field, b);
    assert ("<loupe-data" + a)[11..] == a && (">\n" + rest)[2..] == rest;
    assert [("field", field)] + ([("source", source)] + ([("boundary", boundary)] + []))
        == [("field", field), ("source", source), ("boundary", boundary)];
  }
}
