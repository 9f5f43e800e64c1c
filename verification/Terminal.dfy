/**
 Plain and coloured rendering of findings for an operator's terminal. Data is
 escaped before the renderer adds its own ANSI sequences, so colour never changes
 content and no control character of the data reaches the terminal.
 */
module Terminal {
  import opened Bytes
  import opened Calendar
  import opened Decimal
  import opened Hexadecimal
  import opened Lifecycle
  import opened TextLines
  import opened Wrappers

  datatype Style = PlainStyle | ColorStyle

  datatype Severity = Info | Low | Medium | High | Critical

  datatype FindingDetail = FindingDetail(
    id: int, repoId: int, jobId: int, scannerId: string, severity: Severity, title: string,
    description: string, filePath: Option<string>, lineStart: Option<int>, lineEnd: Option<int>,
    cwe: Option<string>, patchUnified: Option<string>, pocUnified: Option<string>, fingerprint: string,
    state: FindingState, verificationRequired: bool, createdAt: int,
    approvedAt: Option<int>, approvedBy: Option<string>, rejectedAt: Option<int>, rejectedBy: Option<string>)

  datatype FindingSummary = FindingSummary(
    id: int, jobId: int, scannerId: string, severity: Severity, title: string,
    filePath: Option<string>, lineStart: Option<int>, state: FindingState, verificationRequired: bool)

  const ESC := '\U{1B}'
  const BOLD := "1"
  const DIM := "2"
  const RED := "31"
  const GREEN := "32"
  const YELLOW := "33"
  const CYAN := "36"
  const DASH := " \U{2014} "
  const BAR_CHAR := '\U{2500}'

  const POC_TITLE := "Proof of concept" + " (regression tes" + "t, fails on HEAD)"
  const NO_POC := "  (none" + DASH + "scanner did not " + "emit a regression" + "-test diff)\n\n"

  // ---------- Escaping ----------

  predicate IsControl(c: char)
  {
    (c as int) < 0x20 || 0x7F <= c as int <= 0x9F
  }

  function Hex(n: nat): (s: string)
    requires n < 256
    ensures forall i :: 0 <= i < |s| ==> !IsControl(s[i])
  {
    if n < 16 then [HexChar(n)] else [HexChar(n / 16), HexChar(n % 16)]
  }

  /** Rust's `escape_default`, on the control characters it is applied to. */
  function EscapeControl(c: char): (s: string)
    requires IsControl(c)
    ensures Visible(s)
  {
    if c == '\t' then "\\t" else if c == '\r' then "\\r" else if c == '\n' then "\\n"
    else "\\u{" + Hex(c as int) + "}"
  }

  /** No control character at all. */
  predicate Visible(s: string)
  {
    forall i :: 0 <= i < |s| ==> !IsControl(s[i])
  }

  function Escaped(s: string): (r: string)
    ensures Visible(r)
  {
    if s == "" then ""
    else (if IsControl(s[0]) then EscapeControl(s[0]) else [s[0]]) + Escaped(s[1..])
  }

  function HexNumber(s: string): (n: nat)
    requires AllHex(s)
  {
    if s == "" then 0 else HexNumber(s[..|s| - 1]) * 16 + Digit(s[|s| - 1])
  }

  /** What a Rust character escape stands for; hexadecimal digits without leading zeros. */
  function ReadEscaped(s: string): (r: Option<int>)
  {
    if s == "\\t" then Some(9)
    else if s == "\\n" then Some(10)
    else if s == "\\r" then Some(13)
    else if |s| > 4 && s[..3] == "\\u{" && s[|s| - 1] == '}' && AllHex(s[3..|s| - 1]) && (|s| > 5 ==> s[3] != '0')
    then Some(HexNumber(s[3..|s| - 1]))
    else None
  }

  /** A control's escape reads back as the control, in two characters where Rust has a short form. */
  lemma EscapeControlReads(c: char)
    requires IsControl(c)
    ensures ReadEscaped(EscapeControl(c)) == Some(c as int)
    ensures |EscapeControl(c)| == 2 <==> c == '\t' || c == '\n' || c == '\r'
  {
    var e := EscapeControl(c);
    if !(c == '\t' || c == '\n' || c == '\r') {
      var h := Hex(c as int);
      assert e[3..|e| - 1] == h && e[..3] == "\\u{";
      assert HexNumber(h[..1]) == HexNumber(h[..1][..0]) * 16 + Digit(h[0]);
      assert h[..|h|] == h;
    }
  }

  lemma {:induction false} EscapedConcat(a: string, b: string)
    ensures Escaped(a + b) == Escaped(a) + Escaped(b)
  {
    hide EscapeControl, IsControl;
    if a == "" {
      assert a + b == b;
    } else {
      EscapedConcat(a[1..], b);
      assert (a + b)[0] == a[0] && (a + b)[1..] == a[1..] + b;
      var first := if IsControl(a[0]) then EscapeControl(a[0]) else [a[0]];
      ConcatAssoc(first, Escaped(a[1..]), Escaped(b));
    }
  }

  /** Text without controls is shown as it is. */
  lemma {:induction false} EscapedVisible(s: string)
    requires Visible(s)
    ensures Escaped(s) == s
  {
    if s != "" {
      EscapedVisible(s[1..]);
    }
  }

  method TerminalText(s: string) returns (out: string)
    ensures out == Escaped(s)
  {
    out := "";
    var i := 0;
    while i < |s|
      invariant 0 <= i <= |s|
      invariant out == Escaped(s[..i])
    {
      EscapedConcat(s[..i], [s[i]]);
      assert s[..i + 1] == s[..i] + [s[i]];
      assert Escaped([s[i]]) == (if IsControl(s[i]) then EscapeControl(s[i]) else [s[i]]) + Escaped([s[i]][1..]);
      if IsControl(s[i]) {
        out := out + EscapeControl(s[i]);
      } else {
        out := out + [s[i]];
      }
      i := i + 1;
    }
    assert s[..i] == s;
  }

  // ---------- Styled output ----------

  function Sequence(code: string): (s: string)
  {
    [ESC, '['] + code + "m"
  }

  function Paint(style: Style, code: string, text: string): (s: string)
  {
    match style
    case PlainStyle => Escaped(text)
    case ColorStyle => Sequence(code) + Escaped(text) + Sequence("0")
  }

  /** One piece of output: layout text written as is, or painted data. */
  datatype Span = Layout(text: string) | Painted(code: string, data: string)

  function RenderSpan(span: Span, style: Style): (s: string)
  {
    match span
    case Layout(text) => text
    case Painted(code, data) => Paint(style, code, data)
  }

  function Rendered(spans: seq<Span>, style: Style): (s: string)
  {
    if spans == [] then "" else RenderSpan(spans[0], style) + Rendered(spans[1..], style)
  }

  lemma {:induction false} RenderedConcat(a: seq<Span>, b: seq<Span>, style: Style)
    ensures Rendered(a + b, style) == Rendered(a, style) + Rendered(b, style)
  {
    hide RenderSpan;
    if a == [] {
      assert a + b == b;
    } else {
      RenderedConcat(a[1..], b, style);
      assert (a + b)[1..] == a[1..] + b;
      ConcatAssoc(RenderSpan(a[0], style), Rendered(a[1..], style), Rendered(b, style));
    }
  }

  /** No control character but the line feed. */
  predicate Clean(s: string)
  {
    forall i :: 0 <= i < |s| ==> !IsControl(s[i]) || s[i] == '\n'
  }

  predicate KnownCode(code: string)
  {
    code == "0" || code == BOLD || code == DIM || code == RED || code == GREEN || code == YELLOW || code == CYAN
  }

  predicate CleanSpan(span: Span)
  {
    match span
    case Layout(text) => Clean(text)
    case Painted(code, _) => KnownCode(code)
  }

  predicate CleanSpans(spans: seq<Span>)
  {
    forall i :: 0 <= i < |spans| ==> CleanSpan(spans[i])
  }

  /** The length of the known ANSI sequence `s` starts with, or zero. */
  function SequenceLength(s: string): (n: nat)
    ensures n <= |s|
  {
    if Sequence("0") <= s || Sequence(BOLD) <= s || Sequence(DIM) <= s then 4
    else if Sequence(RED) <= s || Sequence(GREEN) <= s || Sequence(YELLOW) <= s || Sequence(CYAN) <= s then 5
    else 0
  }

  /** Removes the seven known sequences; fails on any other control but the line feed. */
  function Unstyled(s: string): (r: Option<string>)
  {
    if s == "" then Some("")
    else if s[0] == ESC then
      var n := SequenceLength(s);
      if n == 0 then None else Unstyled(s[n..])
    else if IsControl(s[0]) && s[0] != '\n' then None
    else
      var rest := Unstyled(s[1..]);
      if rest.None? then None else Some([s[0]] + rest.value)
  }

  lemma {:induction false} UnstyledText(t: string, rest: string)
    requires Clean(t) && Unstyled(rest).Some?
    ensures Unstyled(t + rest) == Some(t + Unstyled(rest).value)
  {
    if t == "" {
      assert t + rest == rest && t + Unstyled(rest).value == Unstyled(rest).value;
    } else {
      UnstyledText(t[1..], rest);
      assert (t + rest)[1..] == t[1..] + rest;
      assert t + Unstyled(rest).value == [t[0]] + (t[1..] + Unstyled(rest).value);
    }
  }

  lemma UnstyledSequence(code: string, rest: string)
    requires KnownCode(code)
    ensures Unstyled(Sequence(code) + rest) == Unstyled(rest)
  {
    var s := Sequence(code) + rest;
    assert Sequence(code) <= s;
    assert s[2] == code[0];
    assert |code| == 2 ==> s[3] == code[1] && s[4] == 'm';
    assert |code| == 1 ==> s[3] == 'm';
    assert SequenceLength(s) == |Sequence(code)|;
    assert s[|Sequence(code)|..] == rest;
  }

  lemma SpanIsInvisible(span: Span, rest: string)
    requires CleanSpan(span) && Unstyled(rest).Some?
    ensures Unstyled(RenderSpan(span, ColorStyle) + rest)
            == Some(RenderSpan(span, PlainStyle) + Unstyled(rest).value)
    ensures Clean(RenderSpan(span, PlainStyle))
  {
    hide Unstyled, Escaped, Sequence;
    match span {
      case Layout(text) => UnstyledText(text, rest);
      case Painted(code, data) =>
        var text := Escaped(data);
        var reset := Sequence("0");
        UnstyledSequence("0", rest);
        UnstyledText(text, reset + rest);
        UnstyledSequence(code, text + (reset + rest));
        assert RenderSpan(span, ColorStyle) + rest == Sequence(code) + (text + (reset + rest));
    }
  }

  /** Colour is invisible: stripping it gives the plain rendering, which is clean. */
  lemma {:induction false} ColorIsInvisible(spans: seq<Span>)
    requires CleanSpans(spans)
    ensures Unstyled(Rendered(spans, ColorStyle)) == Some(Rendered(spans, PlainStyle))
    ensures Clean(Rendered(spans, PlainStyle))
  {
    hide RenderSpan, CleanSpan;
    if spans != [] {
      ColorIsInvisible(spans[1..]);
      SpanIsInvisible(spans[0], Rendered(spans[1..], ColorStyle));
    }
  }

  // ---------- The finding ----------

  function SeverityLabel(s: Severity): (r: string)
    ensures Visible(r)
  {
    match s
    case Critical => "critical"
    case High => "high"
    case Medium => "medium"
    case Low => "low"
    case Info => "info"
  }

  function SeverityColor(s: Severity): (r: string)
    ensures KnownCode(r)
  {
    match s
    case Critical => RED
    case High => RED
    case Medium => YELLOW
    case Low => GREEN
    case Info => GREEN
  }

  function StateName(s: FindingState): (r: string)
    ensures Visible(r)
  {
    match s
    case Pending => "pending"
    case Validating => "validating"
    case AwaitingApproval => "awaiting_approval"
    case Confirmed => "confirmed"
    case Dismissed => "dismissed"
    case Reported => "reported"
  }

  function StateColor(s: FindingState): (r: string)
    ensures KnownCode(r)
  {
    match s
    case AwaitingApproval => YELLOW
    case Confirmed => GREEN
    case Reported => CYAN
    case Dismissed => RED
    case Validating => DIM
    case Pending => DIM
  }

  function BoolName(b: bool): (r: string)
    ensures Visible(r)
  {
    if b then "true" else "false"
  }

  function Location(f: FindingDetail): (s: string)
  {
    if f.filePath.None? then "(unknown)"
    else if f.lineStart.None? then f.filePath.value
    else if f.lineEnd.Some? && f.lineEnd.value > f.lineStart.value then
      f.filePath.value + ":" + DecInt(f.lineStart.value) + "-" + DecInt(f.lineEnd.value)
    else f.filePath.value + ":" + DecInt(f.lineStart.value)
  }

  // Each section is the spans it leaves behind when it starts after `acc`.

  function HeaderSpans(acc: seq<Span>, f: FindingDetail): (r: seq<Span>)
  {
    acc + [Painted(BOLD, "Finding #" + DecInt(f.id)), Layout(" "),
           Painted(SeverityColor(f.severity), "[" + SeverityLabel(f.severity) + "]"), Layout(DASH),
           Painted(BOLD, f.title), Layout("\n"), Painted(DIM, Fill(BAR_CHAR, 60)), Layout("\n")]
  }

  function RowSpans(acc: seq<Span>, name: string, value: Span): (r: seq<Span>)
  {
    acc + [Layout("  "), Painted(DIM, name), Layout(" "), value, Layout("\n")]
  }

  function MetadataSpans(acc: seq<Span>, f: FindingDetail): (r: seq<Span>)
  {
    var a := RowSpans(acc, "Location:", Layout(Escaped(Location(f))));
    var b := RowSpans(a, "Repo:    ", Layout(DecInt(f.repoId)));
    var c := RowSpans(b, "Job:     ", Layout(DecInt(f.jobId)));
    var d := RowSpans(c, "Scanner: ", Layout(Escaped(f.scannerId)));
    var e := RowSpans(d, "State:   ", Painted(StateColor(f.state), StateName(f.state)));
    var g := if f.cwe.Some? then RowSpans(e, "CWE:     ", Layout(Escaped(f.cwe.value))) else e;
    var h := RowSpans(g, "Created: ", Layout(FormatUnix(f.createdAt)));
    var i := RowSpans(h, "Verify:  ", Layout(BoolName(f.verificationRequired)));
    RowSpans(i, "FP:      ", Painted(DIM, f.fingerprint)) + [Layout("\n")]
  }

  function SectionSpans(acc: seq<Span>, title: string): (r: seq<Span>)
  {
    acc + [Painted(BOLD, title), Layout("\n"), Layout("\n")]
  }

  function LineSpans(acc: seq<Span>, line: Span): (r: seq<Span>)
  {
    acc + [Layout("  "), line, Layout("\n")]
  }

  function DescriptionSpans(acc: seq<Span>, lines: seq<string>): (r: seq<Span>)
  {
    if lines == [] then acc
    else LineSpans(DescriptionSpans(acc, lines[..|lines| - 1]), Layout(Escaped(lines[|lines| - 1])))
  }

  function DiffLineSpan(line: string): (r: Span)
    ensures CleanSpan(r)
  {
    if "+++" <= line || "---" <= line then Painted(DIM, line)
    else if "+" <= line then Painted(GREEN, line)
    else if "-" <= line then Painted(RED, line)
    else if "@@" <= line then Painted(CYAN, line)
    else if "diff " <= line || "index " <= line then Painted(DIM, line)
    else Layout(Escaped(line))
  }

  function DiffSpans(acc: seq<Span>, lines: seq<string>): (r: seq<Span>)
  {
    if lines == [] then acc
    else LineSpans(DiffSpans(acc, lines[..|lines| - 1]), DiffLineSpan(lines[|lines| - 1]))
  }

  function BodySpans(acc: seq<Span>, f: FindingDetail): (r: seq<Span>)
  {
    if Blank(f.description) then acc
    else DescriptionSpans(SectionSpans(acc, "Description"), Lines(f.description)) + [Layout("\n")]
  }

  function PocSpans(acc: seq<Span>, f: FindingDetail): (r: seq<Span>)
  {
    if f.pocUnified.None? then
      SectionSpans(acc, "Proof of concept")
      + [Layout(NO_POC)]
    else
      DiffSpans(SectionSpans(acc, POC_TITLE), Lines(f.pocUnified.value))
      + [Layout("\n")]
  }

  function PatchSpans(acc: seq<Span>, f: FindingDetail): (r: seq<Span>)
  {
    if f.patchUnified.None? then acc
    else DiffSpans(SectionSpans(acc, "Suggested fix"), Lines(f.patchUnified.value)) + [Layout("\n")]
  }

  function DecisionSpans(acc: seq<Span>, code: string, verb: string, at: Option<int>, actor: Option<string>)
    : (r: seq<Span>)
  {
    if at.Some? && actor.Some? then
      acc + [Layout("  "), Painted(code, verb), Layout(" "), Layout(FormatUnix(at.value)), Layout(" by "),
             Layout(Escaped(actor.value)), Layout("\n")]
    else acc
  }

  function AuditSpans(acc: seq<Span>, f: FindingDetail): (r: seq<Span>)
  {
    if f.approvedAt.None? && f.rejectedAt.None? then acc
    else
      var a := SectionSpans(acc, "Audit");
      var b := DecisionSpans(a, GREEN, "approved", f.approvedAt, f.approvedBy);
      DecisionSpans(b, RED, "rejected", f.rejectedAt, f.rejectedBy) + [Layout("\n")]
  }

  function FindingSpans(f: FindingDetail): (r: seq<Span>)
  {
    var a := HeaderSpans([], f);
    var b := MetadataSpans(a, f);
    var c := BodySpans(b, f);
    var d := PocSpans(c, f);
    AuditSpans(PatchSpans(d, f), f)
  }

  // ---------- The renderer ----------

  /** The output buffer the sections append to, with the spans appended so far. */
  class Output {
    const style: Style
    var text: string
    ghost var spans: seq<Span>

    ghost predicate Valid()
      reads this
    {
      text == Rendered(spans, style)
    }

    constructor (style: Style)
      ensures Valid() && spans == [] && this.style == style
    {
      this.style := style;
      text := "";
      spans := [];
    }

    method Append(span: Span)
      requires Valid()
      modifies this
      ensures Valid() && spans == old(spans) + [span]
    {
      RenderedConcat(spans, [span], style);
      assert Rendered([span], style) == RenderSpan(span, style) + Rendered([span][1..], style);
      text := text + RenderSpan(span, style);
      spans := spans + [span];
    }

    method Write(t: string)
      requires Valid()
      modifies this
      ensures Valid() && spans == old(spans) + [Layout(t)]
    {
      Append(Layout(t));
    }

    method Styled(code: string, data: string)
      requires Valid()
      modifies this
      ensures Valid() && spans == old(spans) + [Painted(code, data)]
    {
      Append(Painted(code, data));
    }

    method Header(f: FindingDetail)
      requires Valid()
      modifies this
      ensures Valid() && spans == HeaderSpans(old(spans), f)
    {
      hide Valid, DecInt, SeverityColor, SeverityLabel, Fill;
      Styled(BOLD, "Finding #" + DecInt(f.id));
      Write(" ");
      Styled(SeverityColor(f.severity), "[" + SeverityLabel(f.severity) + "]");
      Write(DASH);
      Styled(BOLD, f.title);
      Write("\n");
      Styled(DIM, Fill(BAR_CHAR, 60));
      Write("\n");
    }

    method Row(name: string, value: Span)
      requires Valid()
      modifies this
      ensures Valid() && spans == RowSpans(old(spans), name, value)
    {
      Write("  ");
      Styled(DIM, name);
      Write(" ");
      Append(value);
      Write("\n");
    }

    method Metadata(f: FindingDetail)
      requires Valid()
      modifies this
      ensures Valid() && spans == MetadataSpans(old(spans), f)
    {
      hide RowSpans, Valid, Escaped, FormatUnix, Location;
      var location := TerminalText(Location(f));
      Row("Location:", Layout(location));
      Row("Repo:    ", Layout(DecInt(f.repoId)));
      Row("Job:     ", Layout(DecInt(f.jobId)));
      var scanner := TerminalText(f.scannerId);
      Row("Scanner: ", Layout(scanner));
      Row("State:   ", Painted(StateColor(f.state), StateName(f.state)));
      if f.cwe.Some? {
        var cwe := TerminalText(f.cwe.value);
        Row("CWE:     ", Layout(cwe));
      }
      Row("Created: ", Layout(FormatUnix(f.createdAt)));
      Row("Verify:  ", Layout(BoolName(f.verificationRequired)));
      Row("FP:      ", Painted(DIM, f.fingerprint));
      Write("\n");
    }

    method Section(title: string)
      requires Valid()
      modifies this
      ensures Valid() && spans == SectionSpans(old(spans), title)
    {
      Styled(BOLD, title);
      Write("\n");
      Write("\n");
    }

    method Line(line: Span)
      requires Valid()
      modifies this
      ensures Valid() && spans == LineSpans(old(spans), line)
    {
      Write("  ");
      Append(line);
      Write("\n");
    }

    method Description(f: FindingDetail)
      requires Valid()
      modifies this
      ensures Valid() && spans == BodySpans(old(spans), f)
    {
      hide Valid, Escaped, Lines, LineSpans, SectionSpans;
      if Blank(f.description) {
        return;
      }
      Section("Description");
      var lines := Lines(f.description);
      ghost var start := spans;
      var i := 0;
      while i < |lines|
        invariant 0 <= i <= |lines| && Valid()
        invariant spans == DescriptionSpans(start, lines[..i])
      {
        var shown := TerminalText(lines[i]);
        Line(Layout(shown));
        assert lines[..i + 1][..i] == lines[..i];
        i := i + 1;
      }
      assert lines[..i] == lines;
      Write("\n");
    }

    method UnifiedDiff(diff: string)
      requires Valid()
      modifies this
      ensures Valid() && spans == DiffSpans(old(spans), Lines(diff))
    {
      hide Valid, Escaped, Lines, LineSpans, DiffLineSpan;
      var lines := Lines(diff);
      var i := 0;
      while i < |lines|
        invariant 0 <= i <= |lines| && Valid()
        invariant spans == DiffSpans(old(spans), lines[..i])
      {
        var line := lines[i];
        Line(DiffLineSpan(line));
        assert lines[..i + 1][..i] == lines[..i];
        i := i + 1;
      }
      assert lines[..i] == lines;
    }

    method Poc(f: FindingDetail)
      requires Valid()
      modifies this
      ensures Valid() && spans == PocSpans(old(spans), f)
    {
      if f.pocUnified.None? {
        Section("Proof of concept");
        Write(NO_POC);
        return;
      }
      Section(POC_TITLE);
      UnifiedDiff(f.pocUnified.value);
      Write("\n");
    }

    method Patch(f: FindingDetail)
      requires Valid()
      modifies this
      ensures Valid() && spans == PatchSpans(old(spans), f)
    {
      if f.patchUnified.None? {
        return;
      }
      Section("Suggested fix");
      UnifiedDiff(f.patchUnified.value);
      Write("\n");
    }

    method Decision(code: string, verb: string, at: Option<int>, actor: Option<string>)
      requires Valid()
      modifies this
      ensures Valid() && spans == DecisionSpans(old(spans), code, verb, at, actor)
    {
      hide Valid, Escaped, FormatUnix;
      if at.Some? && actor.Some? {
        Write("  ");
        Styled(code, verb);
        Write(" ");
        Write(FormatUnix(at.value));
        Write(" by ");
        var shown := TerminalText(actor.value);
        Write(shown);
        Write("\n");
      }
    }

    method Audit(f: FindingDetail)
      requires Valid()
      modifies this
      ensures Valid() && spans == AuditSpans(old(spans), f)
    {
      if f.approvedAt.None? && f.rejectedAt.None? {
        return;
      }
      hide SectionSpans, DecisionSpans, Valid;
      Section("Audit");
      Decision(GREEN, "approved", f.approvedAt, f.approvedBy);
      Decision(RED, "rejected", f.rejectedAt, f.rejectedBy);
      Write("\n");
    }
  }

  /** The whole rendering of a finding, in either style. */
  method Finding(f: FindingDetail, style: Style) returns (text: string)
    ensures text == Rendered(FindingSpans(f), style)
  {
    hide HeaderSpans, MetadataSpans, BodySpans, PocSpans, PatchSpans, AuditSpans;
    var out := new Output(style);
    out.Header(f);
    out.Metadata(f);
    out.Description(f);
    out.Poc(f);
    out.Patch(f);
    out.Audit(f);
    text := out.text;
  }

  // ---------- Every finding is clean ----------

  lemma NumbersVisible(n: int)
    ensures Visible(DecInt(n))
  {
    if n < 0 {
      assert DecInt(n) == "-" + Dec(-n);
    }
  }

  lemma TimestampsVisible(ts: int)
    ensures Visible(FormatUnix(ts))
  {
    hide CivilFromDays;
    CivilRoundTrip(ts / 86_400);
    var date := CivilFromDays(ts / 86_400);
    var second := ts % 86_400;
    assert Visible(FormatYear(date.year));
    ClockVisible(date.month, date.day, second / 3600, second % 3600 / 60, second % 60);
  }

  lemma ClockVisible(month: nat, day: nat, hours: nat, minutes: nat, secs: nat)
    ensures Visible(FormatClock(month, day, hours, minutes, secs))
  {
    hide Padded;
  }

  lemma {:induction false} DescriptionClean(acc: seq<Span>, lines: seq<string>)
    requires CleanSpans(acc)
    ensures CleanSpans(DescriptionSpans(acc, lines))
  {
    if lines != [] {
      DescriptionClean(acc, lines[..|lines| - 1]);
    }
  }

  lemma {:induction false} DiffClean(acc: seq<Span>, lines: seq<string>)
    requires CleanSpans(acc)
    ensures CleanSpans(DiffSpans(acc, lines))
  {
    hide DiffLineSpan;
    if lines != [] {
      DiffClean(acc, lines[..|lines| - 1]);
    }
  }

  lemma RowClean(acc: seq<Span>, name: string, value: Span)
    requires CleanSpans(acc) && CleanSpan(value)
    ensures CleanSpans(RowSpans(acc, name, value))
  {
  }

  lemma MetadataClean(acc: seq<Span>, f: FindingDetail)
    requires CleanSpans(acc)
    ensures CleanSpans(MetadataSpans(acc, f))
  {
    hide RowSpans, FormatUnix, Escaped, DecInt;
    NumbersVisible(f.repoId);
    NumbersVisible(f.jobId);
    TimestampsVisible(f.createdAt);
    var a := RowSpans(acc, "Location:", Layout(Escaped(Location(f))));
    RowClean(acc, "Location:", Layout(Escaped(Location(f))));
    var b := RowSpans(a, "Repo:    ", Layout(DecInt(f.repoId)));
    RowClean(a, "Repo:    ", Layout(DecInt(f.repoId)));
    var c := RowSpans(b, "Job:     ", Layout(DecInt(f.jobId)));
    RowClean(b, "Job:     ", Layout(DecInt(f.jobId)));
    var d := RowSpans(c, "Scanner: ", Layout(Escaped(f.scannerId)));
    RowClean(c, "Scanner: ", Layout(Escaped(f.scannerId)));
    var e := RowSpans(d, "State:   ", Painted(StateColor(f.state), StateName(f.state)));
    RowClean(d, "State:   ", Painted(StateColor(f.state), StateName(f.state)));
    var g := e;
    if f.cwe.Some? {
      g := RowSpans(e, "CWE:     ", Layout(Escaped(f.cwe.value)));
      RowClean(e, "CWE:     ", Layout(Escaped(f.cwe.value)));
    }
    var h := RowSpans(g, "Created: ", Layout(FormatUnix(f.createdAt)));
    RowClean(g, "Created: ", Layout(FormatUnix(f.createdAt)));
    var i := RowSpans(h, "Verify:  ", Layout(BoolName(f.verificationRequired)));
    RowClean(h, "Verify:  ", Layout(BoolName(f.verificationRequired)));
    RowClean(i, "FP:      ", Painted(DIM, f.fingerprint));
  }

  lemma DecisionClean(acc: seq<Span>, code: string, verb: string, at: Option<int>, actor: Option<string>)
    requires CleanSpans(acc) && KnownCode(code)
    ensures CleanSpans(DecisionSpans(acc, code, verb, at, actor))
  {
    hide FormatUnix, Escaped;
    if at.Some? {
      TimestampsVisible(at.value);
    }
  }

  lemma AuditClean(acc: seq<Span>, f: FindingDetail)
    requires CleanSpans(acc)
    ensures CleanSpans(AuditSpans(acc, f))
  {
    hide DecisionSpans;
    var a := SectionSpans(acc, "Audit");
    DecisionClean(a, GREEN, "approved", f.approvedAt, f.approvedBy);
    var b := DecisionSpans(a, GREEN, "approved", f.approvedAt, f.approvedBy);
    DecisionClean(b, RED, "rejected", f.rejectedAt, f.rejectedBy);
  }

  lemma SectionClean(acc: seq<Span>, title: string)
    requires CleanSpans(acc)
    ensures CleanSpans(SectionSpans(acc, title))
  {
  }

  lemma BodyClean(acc: seq<Span>, f: FindingDetail)
    requires CleanSpans(acc)
    ensures CleanSpans(BodySpans(acc, f))
  {
    hide Lines, Blank, SectionSpans, DescriptionSpans;
    SectionClean(acc, "Description");
    DescriptionClean(SectionSpans(acc, "Description"), Lines(f.description));
  }

  lemma DiffsClean(acc: seq<Span>, f: FindingDetail)
    requires CleanSpans(acc)
    ensures CleanSpans(PocSpans(acc, f)) && CleanSpans(PatchSpans(acc, f))
  {
    hide Lines, SectionSpans, DiffSpans;
    var none, some, fix :=
      "Proof of concept", POC_TITLE, "Suggested fix";
    SectionClean(acc, none);
    SectionClean(acc, some);
    SectionClean(acc, fix);
    assert Clean("  (none" + DASH) && Clean("scanner did not ") && Clean("emit a regression") && Clean("-test diff)\n\n");
    assert Clean(NO_POC);
    if f.pocUnified.Some? {
      DiffClean(SectionSpans(acc, some), Lines(f.pocUnified.value));
    }
    if f.patchUnified.Some? {
      DiffClean(SectionSpans(acc, fix), Lines(f.patchUnified.value));
    }
  }

  lemma FindingClean(f: FindingDetail)
    ensures CleanSpans(FindingSpans(f))
  {
    hide MetadataSpans, BodySpans, PocSpans, PatchSpans, AuditSpans;
    var a := HeaderSpans([], f);
    MetadataClean(a, f);
    BodyClean(MetadataSpans(a, f), f);
    var c := BodySpans(MetadataSpans(a, f), f);
    DiffsClean(c, f);
    DiffsClean(PocSpans(c, f), f);
    AuditClean(PatchSpans(PocSpans(c, f), f), f);
  }

  /**
   Removing the seven known sequences from a finding's coloured rendering gives its
   plain rendering, which holds no control character but the line feed.
   */
  lemma FindingColorIsInvisible(f: FindingDetail)
    ensures Unstyled(Rendered(FindingSpans(f), ColorStyle)) == Some(Rendered(FindingSpans(f), PlainStyle))
    ensures Clean(Rendered(FindingSpans(f), PlainStyle))
  {
    FindingClean(f);
    ColorIsInvisible(FindingSpans(f));
  }

  // ---------- List and search rows ----------

  function SeverityDebug(s: Severity): (r: string)
    ensures Visible(r)
  {
    match s
    case Critical => "Critical"
    case High => "High"
    case Medium => "Medium"
    case Low => "Low"
    case Info => "Info"
  }

  function SummaryLocation(f: FindingSummary): (s: string)
  {
    if f.filePath.None? then "-"
    else if f.lineStart.None? then f.filePath.value
    else f.filePath.value + ":" + DecInt(f.lineStart.value)
  }

  /** `{:>5}`: right-aligned in five columns. */
  function RightAligned(n: int): (s: string)
  {
    var d := DecInt(n);
    if |d| < 5 then Fill(' ', 5 - |d|) + d else d
  }

  /** The tab-separated columns of a row. */
  function Columns(s: string): (r: seq<string>)
    ensures r != []
  {
    if s == "" then [""]
    else if s[0] == '\t' then [""] + Columns(s[1..])
    else
      var rest := Columns(s[1..]);
      [[s[0]] + rest[0]] + rest[1..]
  }

  function JoinTabs(cols: seq<string>): (s: string)
    requires cols != []
  {
    if |cols| == 1 then cols[0] else cols[0] + "\t" + JoinTabs(cols[1..])
  }

  predicate AllVisible(cols: seq<string>)
  {
    forall i :: 0 <= i < |cols| ==> Visible(cols[i])
  }

  lemma {:induction false} ColumnsPrefix(a: string, rest: string)
    requires Visible(a)
    ensures Columns(a + "\t" + rest) == [a] + Columns(rest)
  {
    var s := a + "\t" + rest;
    if a == "" {
      assert s[1..] == rest;
    } else {
      assert s[1..] == a[1..] + "\t" + rest;
      ColumnsPrefix(a[1..], rest);
      assert a == [a[0]] + a[1..];
    }
  }

  lemma {:induction false} ColumnsWhole(a: string)
    requires Visible(a)
    ensures Columns(a) == [a]
  {
    if a != "" {
      ColumnsWhole(a[1..]);
      assert a == [a[0]] + a[1..];
    }
  }

  /** Visible columns joined by tabs split back into exactly those columns. */
  lemma {:induction false} ColumnsOfJoin(cols: seq<string>)
    requires cols != [] && AllVisible(cols)
    ensures Columns(JoinTabs(cols)) == cols
  {
    if |cols| == 1 {
      ColumnsWhole(cols[0]);
    } else {
      ColumnsPrefix(cols[0], JoinTabs(cols[1..]));
      ColumnsOfJoin(cols[1..]);
    }
  }

  lemma AlignedVisible(n: int)
    ensures Visible(RightAligned(n))
  {
    NumbersVisible(n);
  }

  /** The format of a list row, its literal tabs between these columns. */
  function ListColumns(f: FindingSummary): (r: seq<string>)
    ensures |r| == 8
  {
    [RightAligned(f.id), "job=" + DecInt(f.jobId), SeverityDebug(f.severity), Escaped(f.scannerId),
     "state=" + StateName(f.state), "verify=" + BoolName(f.verificationRequired),
     Escaped(SummaryLocation(f)), Escaped(f.title)]
  }

  function ListRow(f: FindingSummary): (s: string)
  {
    JoinTabs(ListColumns(f))
  }

  function SearchColumns(f: FindingSummary): (r: seq<string>)
    ensures |r| == 6
  {
    [RightAligned(f.id), SeverityDebug(f.severity), Escaped(f.scannerId), "state=" + StateName(f.state),
     Escaped(SummaryLocation(f)), Escaped(f.title)]
  }

  function SearchRow(f: FindingSummary): (s: string)
  {
    JoinTabs(SearchColumns(f))
  }

  function Tabs(s: string): (n: nat)
  {
    if s == "" then 0 else (if s[0] == '\t' then 1 else 0) + Tabs(s[1..])
  }

  lemma {:induction false} TabsAreColumnBreaks(s: string)
    ensures Tabs(s) == |Columns(s)| - 1
  {
    if s != "" {
      TabsAreColumnBreaks(s[1..]);
    }
  }

  /** Whatever the data, rows split into exactly the intended columns, none holding a control character. */
  lemma RowColumns(f: FindingSummary)
    ensures Columns(ListRow(f)) == ListColumns(f) && AllVisible(ListColumns(f)) && Tabs(ListRow(f)) == 7
    ensures Columns(SearchRow(f)) == SearchColumns(f) && AllVisible(SearchColumns(f)) && Tabs(SearchRow(f)) == 5
  {
    hide Columns, RightAligned, Escaped, DecInt, SeverityDebug, StateName, BoolName, SummaryLocation, JoinTabs, Tabs;
    AlignedVisible(f.id);
    NumbersVisible(f.jobId);
    ColumnsOfJoin(ListColumns(f));
    ColumnsOfJoin(SearchColumns(f));
    TabsAreColumnBreaks(ListRow(f));
    TabsAreColumnBreaks(SearchRow(f));
  }
}
