/** Lines and whitespace of a text, as Rust splits and trims it. */
module TextLines {

  /** The index just past the first line feed, or the end. */
  function LineEnd(s: string): (n: nat)
    ensures n <= |s| && (s != "" ==> n > 0)
  {
    if s == "" then 0 else if s[0] == '\n' then 1 else 1 + LineEnd(s[1..])
  }

  predicate OneLine(s: string)
  {
    '\n' !in s
  }

  lemma {:induction false} LineEndOf(a: string, rest: string)
    requires OneLine(a)
    ensures LineEnd(a + "\n" + rest) == |a| + 1
  {
    var t := a + "\n" + rest;
    if a != "" {
      assert t[1..] == a[1..] + "\n" + rest;
      LineEndOf(a[1..], rest);
    }
  }

  /** A line without its ending, `\n` or `\r\n`. */
  function Chomp(line: string): (r: string)
  {
    if line == "" || line[|line| - 1] != '\n' then line
    else
      var body := line[..|line| - 1];
      if body != "" && body[|body| - 1] == '\r' then body[..|body| - 1] else body
  }

  function Lines(s: string): (r: seq<string>)
    decreases |s|
  {
    if s == "" then [] else [Chomp(s[..LineEnd(s)])] + Lines(s[LineEnd(s)..])
  }

  predicate UnicodeWhitespace(c: char)
  {
    var n := c as int;
    || 0x09 <= n <= 0x0D || n == 0x20 || n == 0x85 || n == 0xA0 || n == 0x1680 || 0x2000 <= n <= 0x200A
    || n == 0x2028 || n == 0x2029 || n == 0x202F || n == 0x205F || n == 0x3000
  }

  predicate Blank(s: string)
  {
    forall i :: 0 <= i < |s| ==> UnicodeWhitespace(s[i])
  }

  function TrimStart(s: string): (r: string)
  {
    if s != "" && UnicodeWhitespace(s[0]) then TrimStart(s[1..]) else s
  }

  function TrimEnd(s: string): (r: string)
  {
    if s != "" && UnicodeWhitespace(s[|s| - 1]) then TrimEnd(s[..|s| - 1]) else s
  }

  function Trim(s: string): (r: string)
  {
    TrimEnd(TrimStart(s))
  }
}
