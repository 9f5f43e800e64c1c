/**
 Report bodies. Untrusted values sit in backtick fences one tick longer than any
 run of ticks inside them (section 4.5 of CommonMark 0.31), so that a scanner of
 fences recovers exactly the values, whatever they hold.
 */
module ReportFences {
  import opened Bytes
  import opened Decimal
  import opened TextLines
  import opened Wrappers

  const TICK := '`'

  // ---------- Fence width ----------

  /** The run of ticks a text starts with. */
  function Ticks(s: string): (n: nat)
    ensures n <= |s| && forall i :: 0 <= i < n ==> s[i] == TICK
    ensures n < |s| ==> s[n] != TICK
  {
    if s == "" || s[0] != TICK then 0 else 1 + Ticks(s[1..])
  }

  function Max(a: nat, b: nat): (m: nat)
  {
    if a < b then b else a
  }

  /** The longest run of ticks starting anywhere in a text. */
  function Longest(s: string): (n: nat)
    ensures n >= Ticks(s)
  {
    if s == "" then 0 else Max(Ticks(s), Longest(s[1..]))
  }

  function FenceWidth(value: string): (w: nat)
    ensures w >= 3 && w > Longest(value)
  {
    Max(3, Longest(value) + 1)
  }

  /** `n` backquotes in a row, from `i` on. */
  predicate RunAt(s: string, i: int, n: nat)
  {
    0 <= i <= |s| - n && forall k :: i <= k < i + n ==> s[k] == TICK
  }

  lemma {:induction false} LongestAttained(s: string)
    ensures exists i :: RunAt(s, i, Longest(s))
  {
    if s == "" || Longest(s) == Ticks(s) {
      assert RunAt(s, 0, Longest(s));
    } else {
      LongestAttained(s[1..]);
      var j :| RunAt(s[1..], j, Longest(s[1..]));
      assert forall k :: j + 1 <= k < j + 1 + Longest(s) ==> s[k] == s[1..][k - 1];
      assert RunAt(s, j + 1, Longest(s));
    }
  }

  lemma {:induction false} RunsWithin(s: string, i: nat, n: nat)
    requires RunAt(s, i, n)
    ensures n <= Longest(s)
  {
    if i > 0 {
      assert forall k :: i - 1 <= k < i - 1 + n ==> s[1..][k] == s[k + 1];
      RunsWithin(s[1..], i - 1, n);
    }
  }

  /** The width is at least 3 and exceeds every run of the value, and no smaller number does both. */
  lemma WidthIsLeast(value: string, w: nat)
    ensures w < FenceWidth(value) <==> w < 3 || exists i :: RunAt(value, i, w)
  {
    if 3 <= w < FenceWidth(value) {
      LongestAttained(value);
      var i :| RunAt(value, i, Longest(value));
      assert RunAt(value, i, w);
    }
    if i: nat :| RunAt(value, i, w) {
      RunsWithin(value, i, w);
    }
  }

  /** Lengths of the pieces left by splitting at every character that is not a tick. */
  function RunLengths(s: string): (r: seq<nat>)
    ensures r != [] && r[0] == Ticks(s)
  {
    if s == "" then [0]
    else
      var rest := RunLengths(s[1..]);
      if s[0] == TICK then [rest[0] + 1] + rest[1..] else [0] + rest
  }

  function MaxOf(r: seq<nat>): (m: nat)
    requires r != []
  {
    if |r| == 1 then r[0] else Max(r[0], MaxOf(r[1..]))
  }

  /** The reference's split-and-max is the longest run. */
  lemma {:induction false} LongestBySplitting(s: string)
    ensures MaxOf(RunLengths(s)) == Longest(s)
  {
    if s != "" {
      LongestBySplitting(s[1..]);
      var rest := RunLengths(s[1..]);
      if s[0] == TICK {
        assert ([rest[0] + 1] + rest[1..])[1..] == rest[1..];
      } else {
        assert ([0] + rest)[1..] == rest;
      }
    }
  }

  lemma LongestHead(value: string, i: nat)
    requires i < |value|
    ensures var here, next := value[i..], value[i + 1..];
            && Ticks(here) == (if value[i] == TICK then 1 + Ticks(next) else 0)
            && Longest(here) == Max(Ticks(here), Longest(next))
  {
    assert value[i..][1..] == value[i + 1..];
  }

  /** The renderer's single pass. */
  method MeasureFence(value: string) returns (w: nat)
    ensures w == FenceWidth(value)
  {
    hide Ticks, Longest;
    var longest, run, i := 0, 0, 0;
    assert value[0..] == value;
    while i < |value|
      invariant 0 <= i <= |value| && run <= longest
      invariant Longest(value) == Max(longest, Max(run + Ticks(value[i..]), Longest(value[i..])))
    {
      LongestHead(value, i);
      if value[i] == TICK {
        run := run + 1;
        longest := Max(longest, run);
      } else {
        run := 0;
      }
      i := i + 1;
    }
    assert value[i..] == "";
    NoTicks();
    return Max(longest + 1, 3);
  }

  lemma NoTicks()
    ensures Ticks("") == 0 && Longest("") == 0
  {
  }

  // ---------- The scanner ----------

  datatype Fence = Closed | Open(width: nat, start: nat)

  /** Leading spaces a fence line may have: none for the source's scanner, three for CommonMark. */
  function Indent(line: string, most: nat): (k: nat)
    ensures k <= |line| && k <= most && forall i :: 0 <= i < k ==> line[i] == ' '
  {
    if line == "" || most == 0 || line[0] != ' ' then 0 else 1 + Indent(line[1..], most - 1)
  }

  function Run(line: string, most: nat): (n: nat)
    ensures Indent(line, most) + n <= |line|
  {
    Ticks(line[Indent(line, most)..])
  }

  predicate Closes(line: string, width: nat, most: nat)
  {
    Run(line, most) >= width && Blank(line[Indent(line, most) + Run(line, most)..])
  }

  /** The fenced ranges found from `offset` on. */
  function Scan(text: string, fence: Fence, offset: nat, most: nat): (ranges: seq<(nat, nat)>)
    decreases |text|
  {
    if text == "" then []
    else
      var n := LineEnd(text);
      var line, rest := text[..n], text[n..];
      if fence.Open? then
        if Closes(line, fence.width, most) then [(fence.start, offset)] + Scan(rest, Closed, offset + n, most)
        else Scan(rest, fence, offset + n, most)
      else if Run(line, most) >= 3 then Scan(rest, Open(Run(line, most), offset + n), offset + n, most)
      else Scan(rest, Closed, offset + n, most)
  }

  /** With no indentation allowed, a line's leading backquotes are its run. */
  lemma FlushLine(line: string, width: nat)
    ensures Run(line, 0) == Ticks(line)
    ensures Closes(line, width, 0) <==> Ticks(line) >= width && Blank(line[Ticks(line)..])
  {
    assert line[0..] == line;
  }

  method FenceRanges(body: string) returns (ranges: seq<(nat, nat)>)
    ensures ranges == Scan(body, Closed, 0, 0)
  {
    hide Run, Closes, Blank, Ticks;
    ranges := [];
    var fence, offset, tail := Closed, 0, body;
    while tail != ""
      invariant ranges + Scan(tail, fence, offset, 0) == Scan(body, Closed, 0, 0)
      decreases |tail|
    {
      var n := LineEnd(tail);
      var line := tail[..n];
      var ticks := Ticks(line);
      FlushLine(line, if fence.Open? then fence.width else 0);
      if fence.Open? {
        if ticks >= fence.width && Blank(line[ticks..]) {
          ConcatAssoc(ranges, [(fence.start, offset)], Scan(tail[n..], Closed, offset + n, 0));
          ranges := ranges + [(fence.start, offset)];
          fence := Closed;
        }
      } else if ticks >= 3 {
        fence := Open(ticks, offset + n);
      }
      offset := offset + n;
      tail := tail[n..];
    }
  }

  // ---------- Rendering ----------

  /** Complete lines, none of which opens a fence. */
  predicate Inert(s: string, most: nat)
    decreases |s|
  {
    s == "" || (var n := LineEnd(s); s[n - 1] == '\n' && Run(s[..n], most) < 3 && Inert(s[n..], most))
  }

  datatype Piece = Field(name: string, value: string, language: string) | Literal(text: string)

  function ReferenceField(name: string, value: string, language: string): (s: string)
  {
    var fence := Fill(TICK, FenceWidth(value));
    var heading, info, closing := "- " + name + ":", fence + language, fence + "\n" + "\n";
    heading + "\n" + (info + "\n" + (value + "\n" + closing))
  }

  function PieceText(p: Piece): (s: string)
  {
    match p
    case Field(name, value, language) => ReferenceField(name, value, language)
    case Literal(text) => text
  }

  function Body(ps: seq<Piece>): (s: string)
  {
    if ps == [] then "" else PieceText(ps[0]) + Body(ps[1..])
  }

  predicate ValidPiece(p: Piece, most: nat)
  {
    match p
    case Field(name, _, language) => OneLine(name) && OneLine(language) && Ticks(language) == 0
    case Literal(text) => Inert(text, most)
  }

  function FieldValues(ps: seq<Piece>): (r: seq<string>)
  {
    if ps == [] then []
    else if ps[0].Field? then [ps[0].value] + FieldValues(ps[1..])
    else FieldValues(ps[1..])
  }

  // ---------- Containment ----------

  lemma {:induction false} TicksBefore(a: string, rest: string)
    requires rest == "" || rest[0] != TICK
    ensures Ticks(a + rest) == Ticks(a)
  {
    if a == "" {
      assert a + rest == rest;
    } else if a[0] == TICK {
      assert (a + rest)[1..] == a[1..] + rest;
      TicksBefore(a[1..], rest);
    }
  }

  lemma {:induction false} TicksOfFence(w: nat, rest: string)
    requires rest == "" || rest[0] != TICK
    ensures Ticks(Fill(TICK, w) + rest) == w
    decreases w
  {
    var s := Fill(TICK, w) + rest;
    if w == 0 {
      assert s == rest;
    } else {
      assert s[1..] == Fill(TICK, w - 1) + rest;
      TicksOfFence(w - 1, rest);
    }
  }

  /** One line `a` consumed by the scanner. */
  lemma ScanLine(a: string, rest: string, fence: Fence, offset: nat, most: nat)
    requires OneLine(a)
    ensures var line, next := a + "\n", offset + |a| + 1;
            Scan(a + "\n" + rest, fence, offset, most) ==
            if fence.Open? then
              if Closes(line, fence.width, most) then [(fence.start, offset)] + Scan(rest, Closed, next, most)
              else Scan(rest, fence, next, most)
            else if Run(line, most) >= 3 then Scan(rest, Open(Run(line, most), next), next, most)
            else Scan(rest, Closed, next, most)
  {
    hide Closes, Run;
    LineEndOf(a, rest);
    var text := a + "\n" + rest;
    assert text[..|a| + 1] == a + "\n" && text[|a| + 1..] == rest;
  }

  lemma {:induction false} LongestOfSuffix(s: string, i: nat)
    requires i <= |s|
    ensures Longest(s[i..]) <= Longest(s) && Ticks(s[i..]) <= Longest(s)
  {
    if i > 0 {
      LongestOfSuffix(s[1..], i - 1);
      assert s[1..][i - 1..] == s[i..];
    } else {
      assert s[0..] == s;
    }
  }

  /** The first line feed splits a text into its first line and the rest. */
  lemma {:induction false} FirstLine(v: string) returns (a: string, rest: string)
    requires '\n' in v
    ensures OneLine(a) && v == a + "\n" + rest
  {
    if v[0] == '\n' {
      a, rest := "", v[1..];
    } else {
      assert v == [v[0]] + v[1..];
      var b, r := FirstLine(v[1..]);
      a, rest := [v[0]] + b, r;
      assert v[1..] == b + "\n" + r;
    }
  }

  /** However it is indented, a line of a value has no longer a run of ticks than the value. */
  lemma RunWithin(v: string, a: string, rest: string, most: nat)
    requires OneLine(a) && v + "\n" == a + "\n" + rest
    ensures Run(a + "\n", most) <= Longest(v)
  {
    hide Ticks, Longest;
    var line := a + "\n";
    var k := Indent(line, most);
    assert line[|a|] == '\n';
    assert |a| <= |v|;
    assert a == (a + "\n" + rest)[..|a|] == (v + "\n")[..|a|] == v[..|a|];
    assert line[k..] == a[k..] + "\n";
    TicksBefore(a[k..], "\n");
    LongestOfSuffix(v, k);
    TicksOfPrefix(a[k..], v[k..]);
  }

  lemma {:induction false} TicksOfPrefix(a: string, b: string)
    requires a <= b
    ensures Ticks(a) <= Ticks(b)
  {
    if a != "" && a[0] == TICK {
      TicksOfPrefix(a[1..], b[1..]);
    }
  }

  /** From inside a fence, a value shorter in ticks is skipped whole and its own fence closes it. */
  lemma {:induction false} ScanValue(v: string, w: nat, start: nat, offset: nat, rest: string, most: nat)
    requires Longest(v) < w
    ensures Scan(v + "\n" + (Fill(TICK, w) + "\n" + rest), Open(w, start), offset, most)
            == [(start, offset + |v| + 1)] + Scan(rest, Closed, offset + |v| + 1 + w + 1, most)
    decreases |v|
  {
    hide Scan, Longest, Run, Fill;
    var after := Fill(TICK, w) + "\n" + rest;
    if '\n' in v {
      var a, u := FirstLine(v);
      assert v[|a| + 1..] == u;
      LongestOfSuffix(v, |a| + 1);
      assert v + "\n" == a + "\n" + (u + "\n");
      RunWithin(v, a, u + "\n", most);
      ScanLine(a, u + "\n" + after, Open(w, start), offset, most);
      assert v + "\n" + after == a + "\n" + (u + "\n" + after);
      ScanValue(u, w, start, offset + |a| + 1, rest, most);
    } else {
      assert v + "\n" == v + "\n" + "";
      RunWithin(v, v, "", most);
      ScanLine(v, after, Open(w, start), offset, most);
      ScanFence(w, start, offset + |v| + 1, rest, most);
    }
  }

  lemma ScanFence(w: nat, start: nat, offset: nat, rest: string, most: nat)
    requires w > 0
    ensures Scan(Fill(TICK, w) + "\n" + rest, Open(w, start), offset, most)
            == [(start, offset)] + Scan(rest, Closed, offset + w + 1, most)
  {
    hide Scan;
    var fence := Fill(TICK, w);
    TicksOfFence(w, "\n");
    ScanLine(fence, rest, Open(w, start), offset, most);
    var line := fence + "\n";
    assert line[0] == TICK && line[0..] == line;
    assert line[w..] == "\n";
  }

  lemma {:induction false} ScanInert(t: string, rest: string, offset: nat, most: nat)
    requires Inert(t, most)
    ensures Scan(t + rest, Closed, offset, most) == Scan(rest, Closed, offset + |t|, most)
    decreases |t|
  {
    hide Scan;
    if t == "" {
      assert t + rest == rest;
    } else {
      var n := LineEnd(t);
      LineEndsOnce(t);
      var a := t[..n - 1];
      assert t[..n] == a + "\n";
      ScanLine(a, t[n..] + rest, Closed, offset, most);
      assert t == t[..n] + t[n..];
      ConcatAssoc(t[..n], t[n..], rest);
      ScanInert(t[n..], rest, offset + n, most);
    }
  }

  lemma {:induction false} LineEndsOnce(t: string)
    requires t != ""
    ensures OneLine(t[..LineEnd(t) - 1])
  {
    if t[0] != '\n' && |t| > 1 {
      LineEndsOnce(t[1..]);
      var n := LineEnd(t);
      assert t[..n - 1] == [t[0]] + t[1..][..n - 2];
    }
  }

  /** Where a field's content starts, from the start of the field. */
  function ContentStart(p: Piece): (n: nat)
    requires p.Field?
  {
    |p.name| + 4 + FenceWidth(p.value) + |p.language| + 1
  }

  lemma NestedAppend(a: string, b: string, c: string, d: string, e: string, r: string)
    ensures (a + (b + (c + (d + e)))) + r == a + (b + (c + (d + (e + r))))
  {
  }

  lemma SliceOfNested(a: string, b: string, c: string, d: string)
    ensures (a + (b + (c + d)))[|a| + |b|..|a| + |b| + |c|] == c
  {
  }

  lemma FieldLayout(p: Piece)
    requires p.Field?
    ensures var fence, text := Fill(TICK, FenceWidth(p.value)), PieceText(p);
            && |text| == ContentStart(p) + |p.value| + FenceWidth(p.value) + 3
            && text[ContentStart(p)..ContentStart(p) + |p.value| + 1] == p.value + "\n"
  {
    hide FenceWidth, Fill;
    var fence := Fill(TICK, FenceWidth(p.value));
    var heading, info, closing := "- " + p.name + ":", fence + p.language, fence + "\n" + "\n";
    SliceOfNested(heading + "\n", info + "\n", p.value + "\n", closing);
  }

  /** One field: exactly one range, holding the value and its line feed. */
  lemma ScanField(p: Piece, rest: string, offset: nat, most: nat)
    requires p.Field? && ValidPiece(p, most)
    ensures Scan(PieceText(p) + rest, Closed, offset, most)
            == [(offset + ContentStart(p), offset + ContentStart(p) + |p.value| + 1)]
               + Scan(rest, Closed, offset + |PieceText(p)|, most)
  {
    hide Scan, FenceWidth, Fill, Ticks, Run;
    FieldLayout(p);
    var w := FenceWidth(p.value);
    var fence := Fill(TICK, w);
    var blank := "\n" + rest;
    var closing := fence + "\n" + blank;
    var inner := p.value + "\n" + closing;
    var heading := "- " + p.name + ":";
    var info := fence + p.language;
    NestedAppend(heading + "\n", info + "\n", p.value + "\n", fence + "\n", "\n", rest);
    HeadingRun(p.name, most);
    ScanLine(heading, info + "\n" + inner, Closed, offset, most);
    InfoRun(w, p.language, most);
    var at := offset + |heading| + 1;
    ScanLine(info, inner, Closed, at, most);
    var start := at + |info| + 1;
    assert start == offset + ContentStart(p);
    ScanValue(p.value, w, start, start, blank, most);
    BlankLine(rest, start + |p.value| + 1 + w + 1, most);
  }

  lemma HeadingRun(name: string, most: nat)
    requires OneLine(name)
    ensures OneLine("- " + name + ":") && Run("- " + name + ":" + "\n", most) == 0
  {
    var line := "- " + name + ":" + "\n";
    assert line[0] == '-' && line[0..] == line;
  }

  lemma InfoRun(w: nat, language: string, most: nat)
    requires w > 0 && OneLine(language) && Ticks(language) == 0
    ensures OneLine(Fill(TICK, w) + language) && Run(Fill(TICK, w) + language + "\n", most) == w
  {
    var tail := language + "\n";
    var line := Fill(TICK, w) + language + "\n";
    assert line == Fill(TICK, w) + tail;
    assert tail[0] != TICK by {
      assert language != "" ==> language[0] != TICK;
    }
    TicksOfFence(w, tail);
    assert line[0] == TICK && line[0..] == line;
  }

  lemma BlankLine(rest: string, offset: nat, most: nat)
    ensures Scan("\n" + rest, Closed, offset, most) == Scan(rest, Closed, offset + 1, most)
  {
    hide Scan;
    ScanLine("", rest, Closed, offset, most);
    var line := "" + "\n";
    assert line + rest == "\n" + rest && line[0..] == line && Ticks(line) == 0;
  }

  /** The ranges the fields of a body should occupy. */
  function FieldRanges(ps: seq<Piece>, offset: nat): (r: seq<(nat, nat)>)
  {
    if ps == [] then []
    else
      var next := FieldRanges(ps[1..], offset + |PieceText(ps[0])|);
      if ps[0].Literal? then next
      else
        var start := offset + ContentStart(ps[0]);
        [(start, start + |ps[0].value| + 1)] + next
  }

  lemma {:induction false} ScanBody(ps: seq<Piece>, offset: nat, most: nat)
    requires forall p :: p in ps ==> ValidPiece(p, most)
    ensures Scan(Body(ps), Closed, offset, most) == FieldRanges(ps, offset)
    decreases |ps|
  {
    hide PieceText, ContentStart, ValidPiece, Scan, Inert;
    NothingScanned(offset, most);
    if ps != [] {
      assert ps[0] in ps;
      ScanBody(ps[1..], offset + |PieceText(ps[0])|, most);
      if ps[0].Field? {
        ScanField(ps[0], Body(ps[1..]), offset, most);
      } else {
        LiteralInert(ps[0], most);
        ScanInert(PieceText(ps[0]), Body(ps[1..]), offset, most);
      }
    }
  }

  lemma NothingScanned(offset: nat, most: nat)
    ensures Scan("", Closed, offset, most) == []
  {
  }

  lemma LiteralInert(p: Piece, most: nat)
    requires p.Literal? && ValidPiece(p, most)
    ensures Inert(PieceText(p), most)
  {
  }

  /** Range `i` of `body` holds value `i` and a line feed. */
  ghost predicate Holds(body: string, ranges: seq<(nat, nat)>, values: seq<string>)
  {
    && |ranges| == |values|
    && (forall i :: 0 <= i < |ranges| ==>
          ranges[i].0 <= ranges[i].1 <= |body| && body[ranges[i].0..ranges[i].1] == values[i] + "\n")
  }

  lemma HoldsOneMore(body: string, start: nat, value: string, ranges: seq<(nat, nat)>, values: seq<string>)
    requires Holds(body, ranges, values)
    requires start + |value| + 1 <= |body| && body[start..start + |value| + 1] == value + "\n"
    ensures Holds(body, [(start, start + |value| + 1)] + ranges, [value] + values)
  {
  }

  lemma SliceShift(a: string, b: string, c: string, i: nat, j: nat)
    requires i <= j <= |b|
    ensures (a + (b + c))[|a| + i..|a| + j] == b[i..j]
  {
  }

  lemma {:induction false} RangesHoldValues(before: string, ps: seq<Piece>)
    ensures Holds(before + Body(ps), FieldRanges(ps, |before|), FieldValues(ps))
    decreases |ps|
  {
    hide PieceText, ContentStart, Holds;
    if ps == [] {
      NothingHeld(before + Body(ps));
    } else {
      var head, tail := PieceText(ps[0]), Body(ps[1..]);
      RangesHoldValues(before + head, ps[1..]);
      assert (before + head) + tail == before + (head + tail);
      if ps[0].Field? {
        FieldLayout(ps[0]);
        var s, n := ContentStart(ps[0]), |ps[0].value| + 1;
        SliceShift(before, head, tail, s, s + n);
        HoldsOneMore(before + (head + tail), |before| + s, ps[0].value,
                     FieldRanges(ps[1..], |before| + |head|), FieldValues(ps[1..]));
      }
    }
  }

  lemma NothingHeld(body: string)
    ensures Holds(body, [], [])
  {
  }

  /**
   Whatever the values, the scanner finds exactly one range per field, holding
   exactly that field's value and a line feed: no value ends its own fence or
   forges another field. This holds of the source's scanner, which allows no
   indentation, and of any that allows some, as CommonMark allows three spaces.
   */
  lemma FieldsContained(ps: seq<Piece>, most: nat)
    requires forall p :: p in ps ==> ValidPiece(p, most)
    ensures Holds(Body(ps), Scan(Body(ps), Closed, 0, most), FieldValues(ps))
  {
    hide Body, Scan, FieldRanges, FieldValues, Holds, ValidPiece;
    ScanBody(ps, 0, most);
    RangesHoldValues("", ps);
    assert "" + Body(ps) == Body(ps);
  }

  // ---------- Reading a field and a fence line ----------

  /** A line `- label:` and what follows it. */
  function ReadLabel(t: string): (r: Option<(string, string)>)
  {
    var n := LineEnd(t);
    if n < 4 || t[..2] != "- " || t[n - 2..n] != ":\n" then None else Some((t[2..n - 2], t[n..]))
  }

  /** A line that opens a fence: the language, the width, and what follows the line. */
  function ReadOpening(u: string): (r: Option<(string, nat, string)>)
  {
    var m := LineEnd(u);
    if m == 0 || u[m - 1] != '\n' || Ticks(u[..m]) == m then None
    else Some((u[Ticks(u[..m])..m - 1], Ticks(u[..m]), u[m..]))
  }

  /** The label, the language, the fence width, and what follows the opening fence. */
  function ReadFieldHead(t: string): (r: Option<(string, string, nat, string)>)
  {
    var first := ReadLabel(t);
    if first.None? then None
    else
      var second := ReadOpening(first.value.1);
      if second.None? then None
      else Some((first.value.0, second.value.0, second.value.1, second.value.2))
  }

  /** A field opens with its label and its language, then holds the value, its own fence and an empty line. */
  lemma FieldHeadReads(name: string, value: string, language: string, rest: string)
    requires OneLine(name) && OneLine(language) && Ticks(language) == 0
    ensures var w := FenceWidth(value);
            ReadFieldHead(ReferenceField(name, value, language) + rest)
            == Some((name, language, w, value + "\n" + (Fill(TICK, w) + "\n" + "\n") + rest))
  {
    hide FenceWidth, Ticks, Fill, ReadFieldHead, OneLine;
    var w := FenceWidth(value);
    var fence := Fill(TICK, w);
    var info, inner := fence + language, value + "\n" + (fence + "\n" + "\n");
    FieldRegrouped("- " + name + ":" + "\n", info + "\n", inner, rest);
    InfoRun(w, language, 0);
    FlushLine(info + "\n", 0);
    HeadLies(name, info, w, inner + rest);
    assert info[w..] == language;
  }

  lemma HeadLies(name: string, info: string, w: nat, tail: string)
    requires OneLine(name) && OneLine(info) && Ticks(info + "\n") == w <= |info|
    ensures ReadFieldHead("- " + name + ":" + "\n" + (info + "\n" + tail)) == Some((name, info[w..], w, tail))
  {
    hide Ticks, ReadLabel, ReadOpening, OneLine;
    LabelLies(name, info + "\n" + tail);
    OpeningLies(info, w, tail);
  }

  lemma LabelLies(name: string, u: string)
    requires OneLine(name)
    ensures ReadLabel("- " + name + ":" + "\n" + u) == Some((name, u))
  {
    hide LineEnd;
    var t := "- " + name + ":" + "\n" + u;
    LineEndOf("- " + name + ":", u);
    var n := |name| + 4;
    assert t[..2] == "- " && t[2..n - 2] == name && t[n - 2..n] == ":\n" && t[n..] == u;
  }

  lemma Slices(a: string, c: char, tail: string, w: nat)
    requires w <= |a|
    ensures var u := a + [c] + tail;
            u[|a|] == c && u[..|a| + 1] == a + [c] && u[|a| + 1..] == tail && u[w..|a|] == a[w..]
  {
  }

  lemma OpeningLies(info: string, w: nat, tail: string)
    requires OneLine(info) && Ticks(info + "\n") == w <= |info|
    ensures ReadOpening(info + "\n" + tail) == Some((info[w..], w, tail))
  {
    hide Ticks, LineEnd;
    var u := info + "\n" + tail;
    LineEndOf(info, tail);
    Slices(info, '\n', tail, w);
  }

  lemma FieldRegrouped(a: string, b: string, c: string, rest: string)
    ensures (a + (b + c)) + rest == a + (b + (c + rest))
  {
  }

  /** Any line of backquotes: what it does depends on how many there are and on what follows them. */
  lemma FenceLine(w: nat, info: string, rest: string, fence: Fence, offset: nat)
    requires OneLine(info) && (info == "" || info[0] != TICK)
    ensures var next := offset + w + |info| + 1;
            Scan(Fill(TICK, w) + info + "\n" + rest, fence, offset, 0) ==
            match fence
            case Open(width, start) =>
              if w >= width && Blank(info) then [(start, offset)] + Scan(rest, Closed, next, 0)
              else Scan(rest, fence, next, 0)
            case Closed => Scan(rest, if w >= 3 then Open(w, next) else Closed, next, 0)
  {
    hide Scan, Ticks, Fill;
    var a := Fill(TICK, w) + info;
    var line := a + "\n";
    assert OneLine(a) by {
      assert forall i :: 0 <= i < |a| ==> a[i] == TICK || a[i] in info;
    }
    ScanLine(a, rest, fence, offset, 0);
    FlushLine(line, if fence.Open? then fence.width else 0);
    assert line == Fill(TICK, w) + (info + "\n");
    TicksOfFence(w, info + "\n");
    assert line[w..] == info + "\n";
    BlankLineEnd(info);
  }

  lemma BlankLineEnd(info: string)
    ensures Blank(info + "\n") <==> Blank(info)
  {
    var t := info + "\n";
    assert forall i :: 0 <= i < |info| ==> t[i] == info[i];
    assert UnicodeWhitespace('\n');
  }
}
