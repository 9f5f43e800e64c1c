/**
 A reader of the plain text of a finding. It knows only lines, labels and headings, and
 gives back every field the operator should see; what the renderer writes is proved to
 read as the finding it was given.
 */
module FindingReader {
  import opened Bytes
  import opened Calendar
  import opened Decimal
  import opened Lifecycle
  import opened Search
  import opened Terminal
  import opened TextLines
  import opened Wrappers

  // ---------- Lines, rows and sections ----------

  /** The pieces of a text that line feeds end. */
  function Rows(s: string): (r: seq<string>)
    decreases |s|
  {
    if s == "" then []
    else
      var n := LineEnd(s);
      [if s[n - 1] == '\n' then s[..n - 1] else s[..n]] + Rows(s[n..])
  }

  /** The leading lines that start with two blanks, without them. */
  function Indented(ls: seq<string>): (r: seq<string>)
    ensures |r| <= |ls|
  {
    if ls != [] && "  " <= ls[0] then [ls[0][2..]] + Indented(ls[1..]) else []
  }

  datatype Section = Section(heading: string, lines: seq<string>)

  /** A heading, an empty line, indented lines, an empty line; and so on to the end. */
  function Sections(ls: seq<string>): (r: Option<seq<Section>>)
    decreases |ls|
  {
    if ls == [] then Some([])
    else if |ls| < 3 || ls[1] != "" then None
    else
      var lines := Indented(ls[2..]);
      var rest := ls[2 + |lines|..];
      if rest == [] || rest[0] != "" then None
      else
        var more := Sections(rest[1..]);
        if more.None? then None else Some([Section(ls[0], lines)] + more.value)
  }

  datatype Headline = Headline(id: int, severity: string, title: string)

  /** A word in brackets, a dash, and the title. */
  function ReadTitle(u: string): (r: Option<(string, string)>)
  {
    var end := IndexOf(u, ']');
    if end.None? || end.value == 0 || u[0] != '[' || !(DASH <= u[end.value + 1..]) then None
    else Some((u[1..end.value], u[end.value + 4..]))
  }

  /** `Finding #`, a number, a word in brackets, a dash, and the title. */
  function ReadHeadline(line: string): (r: Option<Headline>)
  {
    if !("Finding #" <= line) then None
    else
      var t := line[9..];
      var blank := IndexOf(t, ' ');
      if blank.None? then None
      else
        var rest := ReadTitle(t[blank.value + 1..]);
        if rest.None? then None else Some(Headline(ReadInt(t[..blank.value]), rest.value.0, rest.value.1))
  }

  /** The text under a label: labels are padded to nine characters, and a blank follows. */
  function Labelled(rows: seq<string>, name: string): (r: Option<string>)
  {
    if rows == [] then None
    else if name + ":" <= rows[0] && |rows[0]| >= 10 then Some(rows[0][10..])
    else Labelled(rows[1..], name)
  }

  datatype Document = Document(headline: Headline, rows: seq<string>, sections: seq<Section>)

  predicate Bar(line: string)
  {
    |line| == 60 && forall i :: 0 <= i < 60 ==> line[i] == BAR_CHAR
  }

  /** A headline, a bar, labelled rows, an empty line, and sections. */
  function ReadDocument(text: string): (r: Option<Document>)
  {
    var ls := Rows(text);
    if |ls| < 3 || !Bar(ls[1]) then None
    else
      var headline, rows := ReadHeadline(ls[0]), Indented(ls[2..]);
      var rest := ls[2 + |rows|..];
      if headline.None? || rest == [] || rest[0] != "" then None
      else
        var sections := Sections(rest[1..]);
        if sections.None? then None else Some(Document(headline.value, rows, sections.value))
  }

  // ---------- Words, places and decisions ----------

  function SeverityOf(word: string): (r: Option<Severity>)
  {
    if word == "critical" || word == "Critical" then Some(Critical)
    else if word == "high" || word == "High" then Some(High)
    else if word == "medium" || word == "Medium" then Some(Medium)
    else if word == "low" || word == "Low" then Some(Low)
    else if word == "info" || word == "Info" then Some(Info)
    else None
  }

  function StateOf(word: string): (r: Option<FindingState>)
  {
    if word == "pending" then Some(Pending)
    else if word == "validating" then Some(Validating)
    else if word == "awaiting_approval" then Some(AwaitingApproval)
    else if word == "confirmed" then Some(Confirmed)
    else if word == "dismissed" then Some(Dismissed)
    else if word == "reported" then Some(Reported)
    else None
  }

  /** What precedes and follows the last colon. */
  function AtLastColon(s: string): (r: Option<(string, string)>)
  {
    if s == "" then None
    else if s[|s| - 1] == ':' then Some((s[..|s| - 1], ""))
    else
      var front := AtLastColon(s[..|s| - 1]);
      if front.None? then None else Some((front.value.0, front.value.1 + [s[|s| - 1]]))
  }

  /** A number, or two with a dash between them. */
  function ReadRange(s: string): (r: (int, Option<int>))
  {
    if s == "" then (0, None)
    else
      var dash := IndexOf(s[1..], '-');
      if dash.None? then (ReadInt(s), None)
      else (ReadInt(s[..dash.value + 1]), Some(ReadInt(s[dash.value + 2..])))
  }

  /** A place reads as its path and lines; without a line it is the path, without a path a fixed word. */
  ghost predicate PlaceShows(s: string, unknown: string, path: Option<string>, start: Option<int>, end: Option<int>)
  {
    match path
    case None => s == unknown
    case Some(p) =>
      if start.None? then s == Escaped(p)
      else
        var place := AtLastColon(s);
        && place.Some? && place.value.0 == Escaped(p)
        && ReadRange(place.value.1)
           == (start.value, if end.Some? && end.value > start.value then end else None)
  }

  datatype Decision = Decision(verb: string, at: int, actor: string)

  /** A verb, a timestamp, the word `by`, and who. */
  function ReadDecision(line: string): (r: Option<Decision>)
  {
    var blank := IndexOf(line, ' ');
    if blank.None? then None
    else
      var t := line[blank.value + 1..];
      var by_ := FirstFrom(t, " by ", 0);
      if by_.None? || by_.value < 19 then None
      else Some(Decision(line[..blank.value], ReadUnix(t[..by_.value]), t[by_.value + 4..]))
  }

  function ReadDecisions(lines: seq<string>): (r: seq<Option<Decision>>)
    ensures |r| == |lines| && forall i :: 0 <= i < |lines| ==> r[i] == ReadDecision(lines[i])
  {
    if lines == [] then [] else [ReadDecision(lines[0])] + ReadDecisions(lines[1..])
  }

  // ---------- What a finding shows ----------

  function Shown(lines: seq<string>): (r: seq<string>)
    ensures |r| == |lines| && forall i :: 0 <= i < |lines| ==> r[i] == Escaped(lines[i])
  {
    if lines == [] then [] else [Escaped(lines[0])] + Shown(lines[1..])
  }

  const POC := "Proof of concept"
  const POC_DIFF := "Proof of concept" + " (regression tes" + "t, fails on HEAD)"
  const NO_DIFF := "(none" + DASH + "scanner did not " + "emit a regression" + "-test diff)"

  function DescriptionPart(f: FindingDetail): (r: seq<Section>)
  {
    if Blank(f.description) then [] else [Section("Description", Shown(Lines(f.description)))]
  }

  function PocPart(f: FindingDetail): (r: seq<Section>)
  {
    if f.pocUnified.None? then [Section(POC, [NO_DIFF])] else [Section(POC_DIFF, Shown(Lines(f.pocUnified.value)))]
  }

  function PatchPart(f: FindingDetail): (r: seq<Section>)
  {
    if f.patchUnified.None? then [] else [Section("Suggested fix", Shown(Lines(f.patchUnified.value)))]
  }

  /** Description unless blank, proof of concept always, suggested fix if there is one. */
  function TextSections(f: FindingDetail): (r: seq<Section>)
  {
    DescriptionPart(f) + PocPart(f) + PatchPart(f)
  }

  /** The recorded decisions that name both a time and an actor. */
  function Decisions(f: FindingDetail): (r: seq<Option<Decision>>)
  {
    (if f.approvedAt.Some? && f.approvedBy.Some?
     then [Some(Decision("approved", f.approvedAt.value, Escaped(f.approvedBy.value)))] else [])
    + (if f.rejectedAt.Some? && f.rejectedBy.Some?
       then [Some(Decision("rejected", f.rejectedAt.value, Escaped(f.rejectedBy.value)))] else [])
  }

  ghost predicate AuditShows(sections: seq<Section>, f: FindingDetail)
  {
    if f.approvedAt.None? && f.rejectedAt.None? then sections == []
    else |sections| == 1 && sections[0].heading == "Audit" && ReadDecisions(sections[0].lines) == Decisions(f)
  }

  ghost predicate RowsShow(rows: seq<string>, f: FindingDetail)
  {
    var place, state := Labelled(rows, "Location"), Labelled(rows, "State");
    var repo, job, created := Labelled(rows, "Repo"), Labelled(rows, "Job"), Labelled(rows, "Created");
    && place.Some? && PlaceShows(place.value, "(unknown)", f.filePath, f.lineStart, f.lineEnd)
    && repo.Some? && ReadInt(repo.value) == f.repoId
    && job.Some? && ReadInt(job.value) == f.jobId
    && Labelled(rows, "Scanner") == Some(Escaped(f.scannerId))
    && state.Some? && StateOf(state.value) == Some(f.state)
    && Labelled(rows, "CWE") == (if f.cwe.None? then None else Some(Escaped(f.cwe.value)))
    && created.Some? && |created.value| >= 19 && ReadUnix(created.value) == f.createdAt
    && Labelled(rows, "Verify") == Some(if f.verificationRequired then "true" else "false")
    && Labelled(rows, "FP") == Some(Escaped(f.fingerprint))
    && |rows| == (if f.cwe.None? then 8 else 9)
  }

  /** The text reads as the finding, field by field. */
  ghost predicate Shows(text: string, f: FindingDetail)
  {
    var read := ReadDocument(text);
    && read.Some?
    && read.value.headline.id == f.id
    && SeverityOf(read.value.headline.severity) == Some(f.severity)
    && read.value.headline.title == Escaped(f.title)
    && RowsShow(read.value.rows, f)
    && var n := |TextSections(f)|;
    && n <= |read.value.sections| && read.value.sections[..n] == TextSections(f)
    && AuditShows(read.value.sections[n..], f)
  }

  // ---------- The lines the renderer leaves ----------

  function Plain(spans: seq<Span>): (s: string)
  {
    Rendered(spans, PlainStyle)
  }

  function PlainSpan(span: Span): (s: string)
  {
    RenderSpan(span, PlainStyle)
  }

  function Unlines(ls: seq<string>): (s: string)
  {
    if ls == [] then "" else ls[0] + "\n" + Unlines(ls[1..])
  }

  function Indent(xs: seq<string>): (r: seq<string>)
    ensures |r| == |xs| && forall i :: 0 <= i < |xs| ==> r[i] == "  " + xs[i]
  {
    if xs == [] then [] else ["  " + xs[0]] + Indent(xs[1..])
  }

  function SectionsText(ss: seq<Section>): (ls: seq<string>)
  {
    if ss == [] then [] else [ss[0].heading, ""] + Indent(ss[0].lines) + [""] + SectionsText(ss[1..])
  }

  /** The spans, rendered plainly, are exactly these lines. */
  ghost predicate Written(spans: seq<Span>, ls: seq<string>)
  {
    Plain(spans) == Unlines(ls)
  }

  lemma {:induction false} UnlinesConcat(a: seq<string>, b: seq<string>)
    ensures Unlines(a + b) == Unlines(a) + Unlines(b)
  {
    if a == [] {
      assert a + b == b;
    } else {
      UnlinesConcat(a[1..], b);
      assert (a + b)[1..] == a[1..] + b;
      ConcatAssoc(a[0] + "\n", Unlines(a[1..]), Unlines(b));
    }
  }

  lemma {:induction false} SectionsTextConcat(a: seq<Section>, b: seq<Section>)
    ensures SectionsText(a + b) == SectionsText(a) + SectionsText(b)
  {
    hide Indent;
    if a == [] {
      assert a + b == b;
    } else {
      SectionsTextConcat(a[1..], b);
      assert (a + b)[1..] == a[1..] + b;
      ConcatAssoc([a[0].heading, ""] + Indent(a[0].lines) + [""], SectionsText(a[1..]), SectionsText(b));
    }
  }

  lemma IndentOneMore(xs: seq<string>, x: string)
    ensures Indent(xs + [x]) == Indent(xs) + ["  " + x]
  {
    hide Indent;
  }

  lemma WrittenMore(acc: seq<Span>, ls: seq<string>, more: seq<Span>, next: seq<string>)
    requires Written(acc, ls) && Written(more, next)
    ensures Written(acc + more, ls + next)
  {
    RenderedConcat(acc, more, PlainStyle);
    UnlinesConcat(ls, next);
  }

  lemma PlainCons(x: Span, rest: seq<Span>)
    ensures Plain([x] + rest) == PlainSpan(x) + Plain(rest)
  {
    assert ([x] + rest)[1..] == rest;
  }

  lemma OneLineWritten(line: string)
    ensures Unlines([line]) == line + "\n"
  {
    assert [line][1..] == [];
  }

  /** Spans that end with a line feed leave one line. */
  lemma SpansWritten(spans: seq<Span>, line: string)
    requires Plain(spans) == line
    ensures Written(spans + [Layout("\n")], [line])
  {
    RenderedConcat(spans, [Layout("\n")], PlainStyle);
    PlainCons(Layout("\n"), []);
    OneLineWritten(line);
  }

  lemma WrittenBlank(acc: seq<Span>, ls: seq<string>)
    requires Written(acc, ls)
    ensures Written(acc + [Layout("\n")], ls + [""])
  {
    SpansWritten([], "");
    assert [] + [Layout("\n")] == [Layout("\n")];
    WrittenMore(acc, ls, [Layout("\n")], [""]);
  }

  lemma WrittenRow(acc: seq<Span>, ls: seq<string>, xs: seq<string>, name: string, value: Span)
    requires Written(acc, ls + Indent(xs)) && Visible(name)
    ensures Written(RowSpans(acc, name, value), ls + Indent(xs + [name + " " + PlainSpan(value)]))
  {
    hide Written, Indent, Escaped;
    var row := name + " " + PlainSpan(value);
    var spans := [Layout("  "), Painted(DIM, name), Layout(" "), value];
    EscapedVisible(name);
    FourPlain(Layout("  "), Painted(DIM, name), Layout(" "), value);
    assert "  " + name + " " + PlainSpan(value) == "  " + row;
    SpansWritten(spans, "  " + row);
    WrittenMore(acc, ls + Indent(xs), spans + [Layout("\n")], ["  " + row]);
    IndentOneMore(xs, row);
    ConcatAssoc(ls, Indent(xs), ["  " + row]);
    assert RowSpans(acc, name, value) == acc + (spans + [Layout("\n")]);
  }

  lemma FourPlain(a: Span, b: Span, c: Span, d: Span)
    ensures Plain([a, b, c, d]) == PlainSpan(a) + PlainSpan(b) + PlainSpan(c) + PlainSpan(d)
  {
    hide PlainSpan, Plain;
    PlainCons(a, [b, c, d]);
    PlainCons(b, [c, d]);
    PlainCons(c, [d]);
    PlainCons(d, []);
    NoSpans();
    assert [a, b, c, d] == [a] + [b, c, d] && [b, c, d] == [b] + [c, d] && [c, d] == [c] + [d] && [d] == [d] + [];
  }

  lemma NoSpans()
    ensures Plain([]) == ""
  {
  }

  lemma WrittenLine(acc: seq<Span>, ls: seq<string>, xs: seq<string>, line: Span)
    requires Written(acc, ls + Indent(xs))
    ensures Written(LineSpans(acc, line), ls + Indent(xs + [PlainSpan(line)]))
  {
    hide Written, Indent;
    var spans := [Layout("  "), line];
    PlainCons(Layout("  "), [line]);
    PlainCons(line, []);
    assert [Layout("  ")] + [line] == spans && [line] + [] == [line];
    SpansWritten(spans, "  " + PlainSpan(line));
    WrittenMore(acc, ls + Indent(xs), spans + [Layout("\n")], ["  " + PlainSpan(line)]);
    IndentOneMore(xs, PlainSpan(line));
    ConcatAssoc(ls, Indent(xs), ["  " + PlainSpan(line)]);
    assert LineSpans(acc, line) == acc + (spans + [Layout("\n")]);
  }

  lemma WrittenHeading(acc: seq<Span>, ls: seq<string>, title: string)
    requires Written(acc, ls) && Visible(title)
    ensures Written(SectionSpans(acc, title), ls + [title, ""] + Indent([]))
  {
    hide Written, Escaped;
    EscapedVisible(title);
    PlainCons(Painted(BOLD, title), []);
    assert [Painted(BOLD, title)] + [] == [Painted(BOLD, title)];
    SpansWritten([Painted(BOLD, title)], title);
    WrittenMore(acc, ls, [Painted(BOLD, title)] + [Layout("\n")], [title]);
    WrittenBlank(acc + ([Painted(BOLD, title)] + [Layout("\n")]), ls + [title]);
    assert SectionSpans(acc, title) == acc + ([Painted(BOLD, title)] + [Layout("\n")]) + [Layout("\n")];
    assert ls + [title, ""] + Indent([]) == ls + [title] + [""];
  }

  lemma ShownOneMore(lines: seq<string>, line: string)
    ensures Shown(lines + [line]) == Shown(lines) + [Escaped(line)]
  {
    hide Shown, Escaped;
  }

  lemma {:induction false} WrittenDescription(acc: seq<Span>, ls: seq<string>, lines: seq<string>)
    requires Written(acc, ls + Indent([]))
    ensures Written(DescriptionSpans(acc, lines), ls + Indent(Shown(lines)))
    decreases |lines|
  {
    hide Written, Indent, LineSpans, Escaped;
    if lines != [] {
      var front, last := lines[..|lines| - 1], lines[|lines| - 1];
      WrittenDescription(acc, ls, front);
      WrittenLine(DescriptionSpans(acc, front), ls, Shown(front), Layout(Escaped(last)));
      ShownOneMore(front, last);
      assert lines == front + [last];
    }
  }

  /** Whatever its colour, a diff line shows as its escaped text. */
  lemma DiffLinePlain(line: string)
    ensures PlainSpan(DiffLineSpan(line)) == Escaped(line)
  {
    hide Escaped;
  }

  lemma {:induction false} WrittenDiff(acc: seq<Span>, ls: seq<string>, lines: seq<string>)
    requires Written(acc, ls + Indent([]))
    ensures Written(DiffSpans(acc, lines), ls + Indent(Shown(lines)))
    decreases |lines|
  {
    hide Written, Indent, LineSpans, Escaped, DiffLineSpan, PlainSpan;
    if lines != [] {
      var front, last := lines[..|lines| - 1], lines[|lines| - 1];
      WrittenDiff(acc, ls, front);
      DiffLinePlain(last);
      WrittenLine(DiffSpans(acc, front), ls, Shown(front), DiffLineSpan(last));
      ShownOneMore(front, last);
      assert lines == front + [last];
    }
  }

  lemma SectionDone(spans: seq<Span>, ls: seq<string>, title: string, lines: seq<string>)
    requires Written(spans, ls + [title, ""] + Indent(lines))
    ensures Written(spans + [Layout("\n")], ls + SectionsText([Section(title, lines)]))
  {
    hide Written, Indent;
    WrittenBlank(spans, ls + [title, ""] + Indent(lines));
    OneSection(ls, title, lines);
  }

  lemma OneSection(ls: seq<string>, title: string, lines: seq<string>)
    ensures ls + SectionsText([Section(title, lines)]) == ls + [title, ""] + Indent(lines) + [""]
  {
    hide Indent;
    var s := [Section(title, lines)];
    assert s[1..] == [];
    assert SectionsText(s) == [title, ""] + Indent(lines) + [""];
  }

  lemma NoSections(ls: seq<string>)
    ensures ls + SectionsText([]) == ls
  {
  }

  lemma WrittenBody(acc: seq<Span>, ls: seq<string>, f: FindingDetail)
    requires Written(acc, ls)
    ensures Written(BodySpans(acc, f), ls + SectionsText(DescriptionPart(f)))
  {
    hide Written, SectionsText, SectionSpans, DescriptionSpans, Lines, Shown, Blank;
    NoSections(ls);
    if !Blank(f.description) {
      var lines := Lines(f.description);
      WrittenHeading(acc, ls, "Description");
      WrittenDescription(SectionSpans(acc, "Description"), ls + ["Description", ""], lines);
      SectionDone(DescriptionSpans(SectionSpans(acc, "Description"), lines), ls, "Description", Shown(lines));
    }
  }

  lemma WrittenDiffSection(acc: seq<Span>, ls: seq<string>, title: string, diff: string)
    requires Written(acc, ls) && Visible(title)
    ensures Written(DiffSpans(SectionSpans(acc, title), Lines(diff)) + [Layout("\n")],
                    ls + SectionsText([Section(title, Shown(Lines(diff)))]))
  {
    hide Written, SectionsText, SectionSpans, DiffSpans, Lines, Shown, Visible;
    WrittenHeading(acc, ls, title);
    WrittenDiff(SectionSpans(acc, title), ls + [title, ""], Lines(diff));
    SectionDone(DiffSpans(SectionSpans(acc, title), Lines(diff)), ls, title, Shown(Lines(diff)));
  }

  lemma NoPocWritten()
    ensures Written([Layout(NO_POC)], Indent([NO_DIFF]) + [""])
  {
    var a, b := "(none", "-test diff)";
    var middle := DASH + "scanner did not " + "emit a regression";
    assert "  (none" == "  " + a && "-test diff)\n\n" == b + "\n" + "\n";
    assert NO_DIFF == a + middle + b;
    assert NO_POC == "  " + (a + middle + b) + "\n" + "\n";
    PlainCons(Layout(NO_POC), []);
    assert [Layout(NO_POC)] + [] == [Layout(NO_POC)];
    OneLineWritten("");
    assert Indent([NO_DIFF]) + [""] == ["  " + NO_DIFF, ""];
    assert ["  " + NO_DIFF, ""][1..] == [""];
  }

  lemma PocTitle()
    ensures Visible(POC_DIFF)
  {
    assert Visible(POC) && Visible(" (regression tes") && Visible("t, fails on HEAD)");
  }

  lemma WrittenPoc(acc: seq<Span>, ls: seq<string>, f: FindingDetail)
    requires Written(acc, ls)
    ensures Written(PocSpans(acc, f), ls + SectionsText(PocPart(f)))
  {
    hide Written, SectionsText, SectionSpans, DiffSpans, Lines, Shown;
    if f.pocUnified.None? {
      WrittenHeading(acc, ls, POC);
      NoPocWritten();
      WrittenMore(SectionSpans(acc, POC), ls + [POC, ""] + Indent([]), [Layout(NO_POC)], Indent([NO_DIFF]) + [""]);
      assert ls + [POC, ""] + Indent([]) + (Indent([NO_DIFF]) + [""]) == ls + [POC, ""] + Indent([NO_DIFF]) + [""];
      OneSection(ls, POC, [NO_DIFF]);
    } else {
      PocTitle();
      WrittenDiffSection(acc, ls, POC_DIFF, f.pocUnified.value);
    }
  }

  lemma WrittenPatch(acc: seq<Span>, ls: seq<string>, f: FindingDetail)
    requires Written(acc, ls)
    ensures Written(PatchSpans(acc, f), ls + SectionsText(PatchPart(f)))
  {
    hide Written, SectionsText, SectionSpans, DiffSpans, Lines, Shown;
    NoSections(ls);
    if f.patchUnified.Some? {
      WrittenDiffSection(acc, ls, "Suggested fix", f.patchUnified.value);
    }
  }

  function DecisionLine(verb: string, at: int, actor: string): (s: string)
  {
    verb + " " + FormatUnix(at) + " by " + Escaped(actor)
  }

  function DecisionLines(verb: string, at: Option<int>, actor: Option<string>): (r: seq<string>)
  {
    if at.Some? && actor.Some? then [DecisionLine(verb, at.value, actor.value)] else []
  }

  lemma WrittenDecision(acc: seq<Span>, ls: seq<string>, xs: seq<string>, code: string, verb: string,
                        at: Option<int>, actor: Option<string>)
    requires Written(acc, ls + Indent(xs)) && Visible(verb)
    ensures Written(DecisionSpans(acc, code, verb, at, actor), ls + Indent(xs + DecisionLines(verb, at, actor)))
  {
    hide Written, Indent, Escaped, FormatUnix, Visible;
    if at.Some? && actor.Some? {
      var ts, who := FormatUnix(at.value), Escaped(actor.value);
      var line := DecisionLine(verb, at.value, actor.value);
      var four := [Layout("  "), Painted(code, verb), Layout(" "), Layout(ts)];
      var two := [Layout(" by "), Layout(who)];
      EscapedVisible(verb);
      FourPlain(Layout("  "), Painted(code, verb), Layout(" "), Layout(ts));
      PlainCons(Layout(" by "), [Layout(who)]);
      PlainCons(Layout(who), []);
      assert [Layout(" by ")] + [Layout(who)] == two && [Layout(who)] + [] == [Layout(who)];
      RenderedConcat(four, two, PlainStyle);
      assert ("  " + verb + " " + ts) + (" by " + who) == "  " + line;
      SpansWritten(four + two, "  " + line);
      WrittenMore(acc, ls + Indent(xs), four + two + [Layout("\n")], ["  " + line]);
      IndentOneMore(xs, line);
      ConcatAssoc(ls, Indent(xs), ["  " + line]);
      assert DecisionSpans(acc, code, verb, at, actor) == acc + (four + two + [Layout("\n")]);
    } else {
      assert xs + [] == xs;
    }
  }

  function AuditLines(f: FindingDetail): (r: seq<string>)
  {
    DecisionLines("approved", f.approvedAt, f.approvedBy) + DecisionLines("rejected", f.rejectedAt, f.rejectedBy)
  }

  function AuditPart(f: FindingDetail): (r: seq<Section>)
  {
    if f.approvedAt.None? && f.rejectedAt.None? then [] else [Section("Audit", AuditLines(f))]
  }

  lemma WrittenAudit(acc: seq<Span>, ls: seq<string>, f: FindingDetail)
    requires Written(acc, ls)
    ensures Written(AuditSpans(acc, f), ls + SectionsText(AuditPart(f)))
  {
    hide Written, SectionsText, SectionSpans, DecisionSpans, DecisionLines;
    NoSections(ls);
    if f.approvedAt.Some? || f.rejectedAt.Some? {
      var a := SectionSpans(acc, "Audit");
      var first := DecisionLines("approved", f.approvedAt, f.approvedBy);
      WrittenHeading(acc, ls, "Audit");
      WrittenDecision(a, ls + ["Audit", ""], [], GREEN, "approved", f.approvedAt, f.approvedBy);
      assert [] + first == first;
      var b := DecisionSpans(a, GREEN, "approved", f.approvedAt, f.approvedBy);
      WrittenDecision(b, ls + ["Audit", ""], first, RED, "rejected", f.rejectedAt, f.rejectedBy);
      SectionDone(DecisionSpans(b, RED, "rejected", f.rejectedAt, f.rejectedBy), ls, "Audit", AuditLines(f));
    }
  }

  function HeadlineText(f: FindingDetail): (s: string)
  {
    "Finding #" + DecInt(f.id) + " " + ("[" + SeverityLabel(f.severity) + "]") + DASH + Escaped(f.title)
  }

  lemma WrittenHeader(f: FindingDetail)
    ensures Written(HeaderSpans([], f), [HeadlineText(f), Fill(BAR_CHAR, 60)])
  {
    hide Written, Escaped, DecInt, SeverityLabel, SeverityColor, Fill;
    var id, word, bar := "Finding #" + DecInt(f.id), "[" + SeverityLabel(f.severity) + "]", Fill(BAR_CHAR, 60);
    var a, b, c, d := Painted(BOLD, id), Layout(" "), Painted(SeverityColor(f.severity), word), Layout(DASH);
    var e, g := Painted(BOLD, f.title), Painted(DIM, bar);
    NumbersVisible(f.id);
    EscapedVisible(id);
    EscapedVisible(word);
    EscapedVisible(bar);
    FourPlain(a, b, c, d);
    PlainCons(e, []);
    PlainCons(g, []);
    assert [e] + [] == [e] && [g] + [] == [g];
    RenderedConcat([a, b, c, d], [e], PlainStyle);
    SpansWritten([a, b, c, d] + [e], HeadlineText(f));
    SpansWritten([g], bar);
    WrittenMore([a, b, c, d] + [e] + [Layout("\n")], [HeadlineText(f)], [g] + [Layout("\n")], [bar]);
    assert [HeadlineText(f)] + [bar] == [HeadlineText(f), bar];
    assert HeaderSpans([], f) == [a, b, c, d] + [e] + [Layout("\n")] + ([g] + [Layout("\n")]);
  }

  // ---------- The metadata rows ----------

  function Cells(labels: seq<string>, values: seq<string>): (rows: seq<string>)
    requires |labels| == |values|
    ensures |rows| == |labels| && forall i :: 0 <= i < |labels| ==> rows[i] == labels[i] + " " + values[i]
  {
    if labels == [] then [] else [labels[0] + " " + values[0]] + Cells(labels[1..], values[1..])
  }

  const HEAD_LABELS: seq<string> := ["Location:", "Repo:    ", "Job:     ", "Scanner: ", "State:   "]
  const TAIL_LABELS: seq<string> := ["Created: ", "Verify:  ", "FP:      "]

  function RowLabels(f: FindingDetail): (r: seq<string>)
  {
    HEAD_LABELS + (if f.cwe.Some? then ["CWE:     "] else []) + TAIL_LABELS
  }

  function RowValues(f: FindingDetail): (r: seq<string>)
    ensures |r| == |RowLabels(f)|
  {
    [Escaped(Location(f)), DecInt(f.repoId), DecInt(f.jobId), Escaped(f.scannerId), StateName(f.state)]
    + (if f.cwe.Some? then [Escaped(f.cwe.value)] else [])
    + [FormatUnix(f.createdAt), BoolName(f.verificationRequired), Escaped(f.fingerprint)]
  }

  function MetadataRows(f: FindingDetail): (rows: seq<string>)
  {
    Cells(RowLabels(f), RowValues(f))
  }

  /** A row more: name `i` with what its span shows. */
  lemma WrittenCell(acc: seq<Span>, ls: seq<string>, rows: seq<string>, i: nat, name: string, value: Span)
    requires i < |rows| && Written(acc, ls + Indent(rows[..i])) && Visible(name)
    requires rows[i] == name + " " + PlainSpan(value)
    ensures Written(RowSpans(acc, name, value), ls + Indent(rows[..i + 1]))
  {
    hide Written, Indent, RowSpans, PlainSpan, Visible;
    WrittenRow(acc, ls, rows[..i], name, value);
    assert rows[..i + 1] == rows[..i] + [rows[i]];
  }

  lemma StatePlain(s: FindingState)
    ensures PlainSpan(Painted(StateColor(s), StateName(s))) == StateName(s)
  {
    hide StateName, StateColor, Escaped;
    EscapedVisible(StateName(s));
  }

  lemma NamesVisible()
    ensures Visible("Location:") && Visible("Repo:    ") && Visible("Job:     ") && Visible("Scanner: ")
    ensures Visible("State:   ") && Visible("CWE:     ") && Visible("Created: ") && Visible("Verify:  ")
    ensures Visible("FP:      ")
  {
  }

  lemma WrittenMetadata(acc: seq<Span>, ls: seq<string>, f: FindingDetail)
    requires Written(acc, ls)
    ensures Written(MetadataSpans(acc, f), ls + Indent(MetadataRows(f)) + [""])
  {
    hide Written, Indent, RowSpans, Escaped, FormatUnix, DecInt, Location, StateName, StateColor, BoolName, Visible;
    NamesVisible();
    var rows := MetadataRows(f);
    assert rows[..0] == [];
    NoIndent(ls);
    StatePlain(f.state);
    var a := RowSpans(acc, "Location:", Layout(Escaped(Location(f))));
    WrittenCell(acc, ls, rows, 0, "Location:", Layout(Escaped(Location(f))));
    var b := RowSpans(a, "Repo:    ", Layout(DecInt(f.repoId)));
    WrittenCell(a, ls, rows, 1, "Repo:    ", Layout(DecInt(f.repoId)));
    var c := RowSpans(b, "Job:     ", Layout(DecInt(f.jobId)));
    WrittenCell(b, ls, rows, 2, "Job:     ", Layout(DecInt(f.jobId)));
    var d := RowSpans(c, "Scanner: ", Layout(Escaped(f.scannerId)));
    WrittenCell(c, ls, rows, 3, "Scanner: ", Layout(Escaped(f.scannerId)));
    var e := RowSpans(d, "State:   ", Painted(StateColor(f.state), StateName(f.state)));
    WrittenCell(d, ls, rows, 4, "State:   ", Painted(StateColor(f.state), StateName(f.state)));
    var g, i := e, 5;
    if f.cwe.Some? {
      g, i := RowSpans(e, "CWE:     ", Layout(Escaped(f.cwe.value))), 6;
      WrittenCell(e, ls, rows, 5, "CWE:     ", Layout(Escaped(f.cwe.value)));
    }
    WrittenTail(g, ls, rows, i, f);
  }

  lemma NoIndent(ls: seq<string>)
    ensures ls + Indent([]) == ls
  {
  }

  lemma WrittenTail(g: seq<Span>, ls: seq<string>, rows: seq<string>, i: nat, f: FindingDetail)
    requires |rows| == i + 3 && Written(g, ls + Indent(rows[..i]))
    requires rows[i] == "Created: " + " " + FormatUnix(f.createdAt)
    requires rows[i + 1] == "Verify:  " + " " + BoolName(f.verificationRequired)
    requires rows[i + 2] == "FP:      " + " " + Escaped(f.fingerprint)
    ensures var h := RowSpans(g, "Created: ", Layout(FormatUnix(f.createdAt)));
            var v := RowSpans(h, "Verify:  ", Layout(BoolName(f.verificationRequired)));
            Written(RowSpans(v, "FP:      ", Painted(DIM, f.fingerprint)) + [Layout("\n")], ls + Indent(rows) + [""])
  {
    hide Written, Indent, RowSpans, Escaped, FormatUnix, BoolName, Visible;
    NamesVisible();
    var h := RowSpans(g, "Created: ", Layout(FormatUnix(f.createdAt)));
    WrittenCell(g, ls, rows, i, "Created: ", Layout(FormatUnix(f.createdAt)));
    var v := RowSpans(h, "Verify:  ", Layout(BoolName(f.verificationRequired)));
    WrittenCell(h, ls, rows, i + 1, "Verify:  ", Layout(BoolName(f.verificationRequired)));
    WrittenCell(v, ls, rows, i + 2, "FP:      ", Painted(DIM, f.fingerprint));
    assert rows[..i + 3] == rows;
    WrittenBlank(RowSpans(v, "FP:      ", Painted(DIM, f.fingerprint)), ls + Indent(rows));
  }

  // ---------- The whole text ----------

  function AllSections(f: FindingDetail): (r: seq<Section>)
  {
    TextSections(f) + AuditPart(f)
  }

  function FindingLines(f: FindingDetail): (ls: seq<string>)
  {
    [HeadlineText(f), Fill(BAR_CHAR, 60)] + Indent(MetadataRows(f)) + [""] + SectionsText(AllSections(f))
  }

  lemma WrittenFinding(f: FindingDetail)
    ensures Written(FindingSpans(f), FindingLines(f))
  {
    hide Written, HeaderSpans, MetadataSpans, BodySpans, PocSpans, PatchSpans, AuditSpans, HeadlineText, MetadataRows,
      Indent, Fill, SectionsText, DescriptionPart, PocPart, PatchPart, AuditPart;
    var top := [HeadlineText(f), Fill(BAR_CHAR, 60)];
    WrittenHeader(f);
    var a := HeaderSpans([], f);
    WrittenMetadata(a, top, f);
    var l0 := top + Indent(MetadataRows(f)) + [""];
    var b := MetadataSpans(a, f);
    WrittenBody(b, l0, f);
    var l1 := l0 + SectionsText(DescriptionPart(f));
    WrittenPoc(BodySpans(b, f), l1, f);
    var l2 := l1 + SectionsText(PocPart(f));
    var c := PocSpans(BodySpans(b, f), f);
    WrittenPatch(c, l2, f);
    WrittenAudit(PatchSpans(c, f), l2 + SectionsText(PatchPart(f)), f);
    FourParts(l0, DescriptionPart(f), PocPart(f), PatchPart(f), AuditPart(f));
  }

  lemma FourParts(ls: seq<string>, a: seq<Section>, b: seq<Section>, c: seq<Section>, d: seq<Section>)
    ensures ls + SectionsText(a) + SectionsText(b) + SectionsText(c) + SectionsText(d) == ls + SectionsText(a + b + c + d)
  {
    hide SectionsText;
    SectionsTextConcat(a + b + c, d);
    SectionsTextConcat(a + b, c);
    SectionsTextConcat(a, b);
  }

  // ---------- Every line is one line ----------

  lemma VisibleIsOneLine(s: string)
    requires Visible(s)
    ensures OneLine(s)
  {
  }

  lemma {:induction false} RowsOfUnlines(ls: seq<string>)
    requires AllVisible(ls)
    ensures Rows(Unlines(ls)) == ls
  {
    if ls != [] {
      var rest := Unlines(ls[1..]);
      var s := ls[0] + "\n" + rest;
      VisibleIsOneLine(ls[0]);
      LineEndOf(ls[0], rest);
      assert s[|ls[0]|] == '\n' && s[..|ls[0]|] == ls[0] && s[|ls[0]| + 1..] == rest;
      RowsOfUnlines(ls[1..]);
      assert ls == [ls[0]] + ls[1..];
    }
  }

  lemma IndentVisible(xs: seq<string>)
    requires AllVisible(xs)
    ensures AllVisible(Indent(xs))
  {
    hide Indent;
  }

  lemma {:induction false} SectionsVisible(ss: seq<Section>)
    requires forall s :: s in ss ==> Visible(s.heading) && AllVisible(s.lines)
    ensures AllVisible(SectionsText(ss))
  {
    hide Indent, Visible;
    if ss != [] {
      assert ss[0] in ss;
      IndentVisible(ss[0].lines);
      SectionsVisible(ss[1..]);
      NothingVisible();
    }
  }

  lemma NothingVisible()
    ensures Visible("")
  {
  }

  lemma CellsVisible(labels: seq<string>, values: seq<string>)
    requires |labels| == |values| && AllVisible(labels) && AllVisible(values)
    ensures AllVisible(Cells(labels, values))
  {
    hide Cells;
    forall i | 0 <= i < |labels| ensures Visible(Cells(labels, values)[i]) {
      assert Visible(labels[i]) && Visible(values[i]);
    }
  }

  lemma MetadataVisible(f: FindingDetail)
    ensures AllVisible(MetadataRows(f))
  {
    hide Cells, Visible, Escaped, FormatUnix, DecInt, Location, StateName, BoolName;
    LabelsVisible(f);
    NumbersVisible(f.repoId);
    NumbersVisible(f.jobId);
    TimestampsVisible(f.createdAt);
    CellsVisible(RowLabels(f), RowValues(f));
  }

  lemma LabelsVisible(f: FindingDetail)
    ensures AllVisible(RowLabels(f))
  {
    hide Visible;
    NamesVisible();
  }

  lemma ShownVisible(lines: seq<string>)
    ensures AllVisible(Shown(lines))
  {
    hide Shown, Escaped;
  }

  lemma DecisionVisible(verb: string, at: Option<int>, actor: Option<string>)
    requires Visible(verb)
    ensures AllVisible(DecisionLines(verb, at, actor))
  {
    hide FormatUnix, Escaped;
    if at.Some? {
      TimestampsVisible(at.value);
    }
  }

  lemma PartsVisible(f: FindingDetail)
    ensures forall s :: s in AllSections(f) ==> Visible(s.heading) && AllVisible(s.lines)
  {
    hide Shown, Lines, Blank, DecisionLines;
    ShownVisible(Lines(f.description));
    if f.pocUnified.Some? {
      ShownVisible(Lines(f.pocUnified.value));
    }
    if f.patchUnified.Some? {
      ShownVisible(Lines(f.patchUnified.value));
    }
    DecisionVisible("approved", f.approvedAt, f.approvedBy);
    DecisionVisible("rejected", f.rejectedAt, f.rejectedBy);
    PocTitle();
    NoDiffVisible();
    HeadingsVisible();
  }

  lemma HeadingsVisible()
    ensures Visible("Description") && Visible(POC) && Visible("Suggested fix") && Visible("Audit")
  {
  }

  lemma NoDiffVisible()
    ensures Visible(NO_DIFF)
  {
    assert Visible("(none") && Visible(DASH) && Visible("scanner did not ") && Visible("emit a regression");
    assert Visible("-test diff)");
  }

  lemma HeadlineVisible(f: FindingDetail)
    ensures Visible(HeadlineText(f)) && Visible(Fill(BAR_CHAR, 60))
  {
    hide DecInt, SeverityLabel, Escaped, Fill;
    NumbersVisible(f.id);
  }

  lemma FindingVisible(f: FindingDetail)
    ensures AllVisible(FindingLines(f))
  {
    hide Visible, HeadlineText, Fill, MetadataRows, Indent, SectionsText, AllSections;
    HeadlineVisible(f);
    MetadataVisible(f);
    IndentVisible(MetadataRows(f));
    PartsVisible(f);
    SectionsVisible(AllSections(f));
    NothingVisible();
  }

  // ---------- Reading the lines back ----------

  lemma TwoBlanks(x: string)
    ensures "  " <= "  " + x && ("  " + x)[2..] == x
  {
  }

  lemma IndentFront(xs: seq<string>, rest: seq<string>)
    requires xs != []
    ensures var ls := Indent(xs) + rest; ls[0] == "  " + xs[0] && ls[1..] == Indent(xs[1..]) + rest
  {
    hide Indent;
  }

  lemma {:induction false} IndentedReads(xs: seq<string>, rest: seq<string>)
    requires rest == [] || rest[0] == ""
    ensures Indented(Indent(xs) + rest) == xs
  {
    hide Indent;
    if xs == [] {
      assert Indent(xs) + rest == rest;
    } else {
      TwoBlanks(xs[0]);
      IndentFront(xs, rest);
      IndentedReads(xs[1..], rest);
      assert xs == [xs[0]] + xs[1..];
    }
  }

  lemma SectionLies(heading: string, block: seq<string>, more: seq<string>)
    ensures var ls := [heading, ""] + block + [""] + more;
            && |ls| >= 3 && ls[0] == heading && ls[1] == "" && ls[2..] == block + ([""] + more)
            && ls[2 + |block|..] == [""] + more && ([""] + more)[1..] == more
  {
  }

  lemma {:induction false} SectionsRead(ss: seq<Section>)
    ensures Sections(SectionsText(ss)) == Some(ss)
  {
    hide Indent, Indented;
    if ss != [] {
      var s, more := ss[0], SectionsText(ss[1..]);
      var ls := SectionsText(ss);
      IndentedReads(s.lines, [""] + more);
      SectionLies(s.heading, Indent(s.lines), more);
      SectionsRead(ss[1..]);
      assert ss == [s] + ss[1..];
    }
  }

  lemma TitleReads(word: string, title: string)
    requires ']' !in word
    ensures ReadTitle("[" + word + "]" + (DASH + title)) == Some((word, title))
  {
    hide IndexOf;
    var tail := DASH + title;
    var u := ("[" + word) + [']'] + tail;
    IndexOfFirst("[" + word, ']', tail);
    assert u[1..|word| + 1] == word && u[|word| + 2..] == tail && u[|word| + 5..] == tail[3..] == title;
  }

  lemma NumberThen(n: string, u: string)
    requires ' ' !in n
    ensures ReadHeadline("Finding #" + (n + " " + u))
            == if ReadTitle(u).None? then None
               else Some(Headline(ReadInt(n), ReadTitle(u).value.0, ReadTitle(u).value.1))
  {
    hide IndexOf, ReadInt, ReadTitle;
    var t := n + [' '] + u;
    IndexOfFirst(n, ' ', u);
    assert ("Finding #" + t)[9..] == t && t[..|n|] == n && t[|n| + 1..] == u;
  }

  lemma HeadlineReads(id: int, word: string, title: string)
    requires ']' !in word
    ensures ReadHeadline("Finding #" + DecInt(id) + " " + ("[" + word + "]") + DASH + title)
            == Some(Headline(id, word, title))
  {
    hide ReadHeadline, ReadTitle, ReadInt;
    var n := DecInt(id);
    DecIntReads(id);
    assert ' ' !in n;
    TitleReads(word, title);
    NumberThen(n, "[" + word + "]" + (DASH + title));
    HeadlineRegrouped("Finding #", n, " ", "[" + word + "]", DASH, title);
  }

  lemma HeadlineRegrouped(a: string, n: string, s: string, w: string, d: string, t: string)
    ensures a + n + s + w + d + t == a + (n + s + (w + (d + t)))
  {
  }

  lemma SeverityReads(s: Severity)
    ensures SeverityOf(SeverityLabel(s)) == Some(s) && SeverityOf(SeverityDebug(s)) == Some(s)
    ensures ' ' !in SeverityLabel(s) && ']' !in SeverityLabel(s)
  {
  }

  lemma StateReads(s: FindingState)
    ensures StateOf(StateName(s)) == Some(s)
  {
  }

  /** Labels told apart by their first two characters. */
  predicate Differs(name: string, other: string)
    requires |name| >= 2 && |other| >= 2
  {
    name[0] != other[0] || name[1] != other[1]
  }

  /** The first label that carries the name gives the value beside it. */
  lemma {:induction false} LabelledAt(labels: seq<string>, values: seq<string>, k: nat, name: string, pad: string)
    requires |labels| == |values| && k < |labels| && 2 <= |name|
    requires forall i :: 0 <= i < |labels| ==> |labels[i]| == 9
    requires forall i :: 0 <= i < k ==> Differs(name, labels[i])
    requires labels[k] == name + ":" + pad
    ensures Labelled(Cells(labels, values), name) == Some(values[k])
    decreases k
  {
    var row := labels[0] + " " + values[0];
    assert row[10..] == values[0] && row[0] == labels[0][0] && row[1] == labels[0][1];
    if k > 0 {
      NotPrefix(name + ":", row);
      LabelledAt(labels[1..], values[1..], k - 1, name, pad);
    } else {
      assert row == (name + ":") + (pad + " " + values[0]);
    }
  }

  lemma NotPrefix(a: string, b: string)
    requires |a| >= 2 && |b| >= 2 && Differs(a, b)
    ensures !(a <= b)
  {
  }

  lemma {:induction false} LabelledNowhere(labels: seq<string>, values: seq<string>, name: string)
    requires |labels| == |values| && 2 <= |name|
    requires forall i :: 0 <= i < |labels| ==> |labels[i]| == 9 && Differs(name, labels[i])
    ensures Labelled(Cells(labels, values), name) == None
  {
    if labels != [] {
      var row := labels[0] + " " + values[0];
      assert row[0] == labels[0][0] && row[1] == labels[0][1];
      NotPrefix(name + ":", row);
      LabelledNowhere(labels[1..], values[1..], name);
    }
  }

  // ---------- Places ----------

  lemma {:induction false} LastColonReads(a: string, b: string)
    requires ':' !in b
    ensures AtLastColon(a + ":" + b) == Some((a, b))
    decreases |b|
  {
    var s := a + ":" + b;
    if b == "" {
      assert s[..|s| - 1] == a;
    } else {
      var front, c := b[..|b| - 1], b[|b| - 1];
      LastColonReads(a, front);
      assert s[..|s| - 1] == a + ":" + front && s[|s| - 1] == c && b == front + [c];
    }
  }

  function RangeText(start: int, end: Option<int>): (s: string)
  {
    if end.Some? && end.value > start then DecInt(start) + "-" + DecInt(end.value) else DecInt(start)
  }

  lemma NumberChars(n: int)
    ensures var s := DecInt(n);
            s != "" && '-' !in s[1..] && ':' !in s && ' ' !in s && Visible(s)
  {
    NumbersVisible(n);
  }

  lemma OneNumber(n: string)
    requires n != "" && '-' !in n[1..]
    ensures ReadRange(n) == (ReadInt(n), None)
  {
    hide ReadInt;
  }

  lemma TwoNumbers(n: string, m: string)
    requires n != "" && '-' !in n[1..]
    ensures ReadRange(n + "-" + m) == (ReadInt(n), Some(ReadInt(m)))
  {
    hide IndexOf, ReadInt;
    var s := n + "-" + m;
    IndexOfFirst(n[1..], '-', m);
    assert s[1..] == n[1..] + ['-'] + m && s[..|n|] == n && s[|n| + 1..] == m;
  }

  lemma RangeReads(start: int, end: Option<int>)
    ensures ReadRange(RangeText(start, end)) == (start, if end.Some? && end.value > start then end else None)
    ensures ':' !in RangeText(start, end) && Visible(RangeText(start, end))
  {
    hide ReadRange, ReadInt, DecInt;
    var n := DecInt(start);
    DecIntReads(start);
    NumberChars(start);
    OneNumber(n);
    if end.Some? && end.value > start {
      DecIntReads(end.value);
      NumberChars(end.value);
      TwoNumbers(n, DecInt(end.value));
    }
  }

  function PlaceText(unknown: string, path: Option<string>, start: Option<int>, end: Option<int>): (s: string)
  {
    if path.None? then unknown
    else if start.None? then path.value
    else path.value + ":" + RangeText(start.value, end)
  }

  lemma PlaceIsShown(unknown: string, path: Option<string>, start: Option<int>, end: Option<int>)
    requires Visible(unknown)
    ensures PlaceShows(Escaped(PlaceText(unknown, path, start, end)), unknown, path, start, end)
  {
    hide Escaped, AtLastColon, ReadRange, RangeText, Visible;
    if path.None? {
      EscapedVisible(unknown);
    } else if start.Some? {
      var p, n := path.value, RangeText(start.value, end);
      RangeReads(start.value, end);
      EscapedConcat(p + ":", n);
      EscapedConcat(p, ":");
      EscapedVisible(n);
      assert Visible(":") by {
        ColonVisible();
      }
      EscapedVisible(":");
      LastColonReads(Escaped(p), n);
    }
  }

  lemma ColonVisible()
    ensures Visible(":") && Visible("(unknown)") && Visible("-")
  {
  }

  lemma LocationIsPlace(f: FindingDetail)
    ensures Location(f) == PlaceText("(unknown)", f.filePath, f.lineStart, f.lineEnd)
  {
    hide DecInt;
    if f.filePath.Some? && f.lineStart.Some? && f.lineEnd.Some? {
      var p, n, m := f.filePath.value, DecInt(f.lineStart.value), DecInt(f.lineEnd.value);
      assert p + ":" + n + "-" + m == p + ":" + (n + "-" + m);
    }
  }

  // ---------- Rows, decisions, and the whole finding ----------

  lemma LabelsAre(f: FindingDetail)
    ensures forall i :: 0 <= i < |RowLabels(f)| ==> |RowLabels(f)[i]| == 9
  {
  }

  lemma RowRead(f: FindingDetail, k: nat, name: string, pad: string)
    requires k < |RowLabels(f)| && 2 <= |name| && RowLabels(f)[k] == name + ":" + pad
    requires forall i :: 0 <= i < k ==> |RowLabels(f)[i]| == 9 && Differs(name, RowLabels(f)[i])
    ensures Labelled(MetadataRows(f), name) == Some(RowValues(f)[k])
  {
    hide RowLabels, RowValues, Labelled, Cells, Differs;
    LabelsAre(f);
    LabelledAt(RowLabels(f), RowValues(f), k, name, pad);
  }

  lemma HeadRowsRead(f: FindingDetail)
    ensures var rows := MetadataRows(f);
            && Labelled(rows, "Location") == Some(Escaped(Location(f)))
            && Labelled(rows, "Repo") == Some(DecInt(f.repoId))
            && Labelled(rows, "Job") == Some(DecInt(f.jobId))
            && Labelled(rows, "Scanner") == Some(Escaped(f.scannerId))
            && Labelled(rows, "State") == Some(StateName(f.state))
  {
    hide Labelled, MetadataRows, Escaped, Location, DecInt, StateName, FormatUnix, BoolName;
    assert "Location" + ":" + "" == "Location:" && "Repo" + ":" + "    " == "Repo:    ";
    assert "Job" + ":" + "     " == "Job:     " && "Scanner" + ":" + " " == "Scanner: ";
    assert "State" + ":" + "   " == "State:   ";
    RowRead(f, 0, "Location", "");
    RowRead(f, 1, "Repo", "    ");
    RowRead(f, 2, "Job", "     ");
    RowRead(f, 3, "Scanner", " ");
    RowRead(f, 4, "State", "   ");
  }

  lemma TailRowsRead(f: FindingDetail)
    ensures var rows := MetadataRows(f);
            && Labelled(rows, "Created") == Some(FormatUnix(f.createdAt))
            && Labelled(rows, "Verify") == Some(BoolName(f.verificationRequired))
            && Labelled(rows, "FP") == Some(Escaped(f.fingerprint))
  {
    hide Labelled, MetadataRows, Escaped, Location, DecInt, StateName, FormatUnix, BoolName;
    var k := if f.cwe.Some? then 6 else 5;
    assert "Created" + ":" + " " == "Created: " && "Verify" + ":" + "  " == "Verify:  ";
    assert "FP" + ":" + "      " == "FP:      ";
    RowRead(f, k, "Created", " ");
    RowRead(f, k + 1, "Verify", "  ");
    RowRead(f, k + 2, "FP", "      ");
  }

  lemma CweRowRead(f: FindingDetail)
    ensures Labelled(MetadataRows(f), "CWE") == (if f.cwe.None? then None else Some(Escaped(f.cwe.value)))
  {
    hide Labelled, Cells, Escaped, Location, DecInt, StateName, FormatUnix, BoolName;
    assert "CWE" + ":" + "     " == "CWE:     ";
    if f.cwe.Some? {
      RowRead(f, 5, "CWE", "     ");
    } else {
      LabelledNowhere(RowLabels(f), RowValues(f), "CWE");
    }
  }

  lemma MetadataShows(f: FindingDetail)
    ensures RowsShow(MetadataRows(f), f)
  {
    hide Labelled, Cells, Escaped, Location, DecInt, StateName, FormatUnix, ReadInt, ReadUnix, StateOf, PlaceShows;
    HeadRowsRead(f);
    CweRowRead(f);
    TailRowsRead(f);
    LocationIsPlace(f);
    ColonVisible();
    PlaceIsShown("(unknown)", f.filePath, f.lineStart, f.lineEnd);
    DecIntReads(f.repoId);
    DecIntReads(f.jobId);
    StateReads(f.state);
    FormatUnixRoundTrip(f.createdAt);
  }

  lemma NoLetterB(ts: int)
    ensures 'b' !in FormatUnix(ts) && |FormatUnix(ts)| >= 19
  {
    hide FormatUnix;
    FormatUnixShape(ts);
    var s := FormatUnix(ts);
    var n := |s| - 19;
    var year, clock := s[..n], s[n..];
    assert s == year + clock;
    YearHasNoB(year);
    ClockHasNoB(clock);
  }

  lemma YearHasNoB(s: string)
    requires YearShaped(s)
    ensures 'b' !in s
  {
    var digits := if s[0] == '-' then s[1..] else s;
    assert forall i :: 1 <= i < |s| ==> s[i] == if s[0] == '-' then digits[i - 1] else digits[i];
  }

  lemma ClockHasNoB(s: string)
    requires ClockShaped(s)
    ensures 'b' !in s
  {
    assert s == [s[0]] + s[1..3] + [s[3]] + s[4..6] + [s[6]] + s[7..9] + [s[9]] + s[10..12] + [s[12]] + s[13..15] + s[15..];
  }

  lemma FirstBy(ts: string, who: string)
    requires 'b' !in ts
    ensures FirstFrom(ts + " by " + who, " by ", 0) == Some(|ts|)
  {
    var t := ts + " by " + who;
    assert t[|ts|..|ts| + 4] == " by ";
    assert OccursAt(t, " by ", |ts|);
    forall k | 0 <= k < |ts| ensures !OccursAt(t, " by ", k) {
      assert t[k..k + 4][1] == t[k + 1];
    }
  }

  lemma DecisionReads(verb: string, at: int, actor: string)
    requires ' ' !in verb
    ensures ReadDecision(DecisionLine(verb, at, actor)) == Some(Decision(verb, at, Escaped(actor)))
  {
    hide IndexOf, FormatUnix, Escaped, ReadUnix, FirstFrom;
    var ts, who := FormatUnix(at), Escaped(actor);
    var t := ts + " by " + who;
    var line := verb + [' '] + t;
    NoLetterB(at);
    FormatUnixRoundTrip(at);
    FirstBy(ts, who);
    IndexOfFirst(verb, ' ', t);
    assert DecisionLine(verb, at, actor) == line;
    assert line[..|verb|] == verb && line[|verb| + 1..] == t && t[..|ts|] == ts && t[|ts| + 4..] == who;
  }

  lemma AuditIsShown(f: FindingDetail)
    ensures AuditShows(AuditPart(f), f)
  {
    hide DecisionLine, ReadDecision, Escaped;
    if f.approvedAt.Some? && f.approvedBy.Some? {
      DecisionReads("approved", f.approvedAt.value, f.approvedBy.value);
    }
    if f.rejectedAt.Some? && f.rejectedBy.Some? {
      DecisionReads("rejected", f.rejectedAt.value, f.rejectedBy.value);
    }
  }

  /**
   Whatever the finding holds, its plain rendering reads as that finding: number, severity
   and title, every labelled row, every text section line by line, and who decided when.
   */
  lemma PlainShows(f: FindingDetail)
    ensures Shows(Rendered(FindingSpans(f), PlainStyle), f)
  {
    hide FindingSpans, Rendered, HeadlineText, MetadataRows, Indent, Indented, SectionsText, Sections, TextSections,
      AuditPart, AuditShows, RowsShow, ReadHeadline, Fill, Rows, Unlines, SeverityOf, SeverityLabel, Escaped;
    WrittenFinding(f);
    FindingVisible(f);
    RowsOfUnlines(FindingLines(f));
    var rows, tail := MetadataRows(f), SectionsText(AllSections(f));
    DocumentLies(HeadlineText(f), Fill(BAR_CHAR, 60), Indent(rows), tail);
    IndentedReads(rows, [""] + tail);
    SectionsRead(AllSections(f));
    HeadlineIsShown(f);
    MetadataShows(f);
    AuditIsShown(f);
    assert AllSections(f)[..|TextSections(f)|] == TextSections(f);
    assert AllSections(f)[|TextSections(f)|..] == AuditPart(f);
  }

  lemma DocumentLies(head: string, bar: string, block: seq<string>, tail: seq<string>)
    ensures var ls := [head, bar] + block + [""] + tail;
            && |ls| >= 3 && ls[0] == head && ls[1] == bar && ls[2..] == block + ([""] + tail)
            && ls[2 + |block|..] == [""] + tail && ([""] + tail)[1..] == tail
  {
  }

  lemma HeadlineIsShown(f: FindingDetail)
    ensures var h := ReadHeadline(HeadlineText(f));
            h.Some? && h.value.id == f.id && SeverityOf(h.value.severity) == Some(f.severity)
            && h.value.title == Escaped(f.title)
  {
    hide ReadHeadline, SeverityOf, SeverityLabel, Escaped, DecInt;
    SeverityReads(f.severity);
    HeadlineReads(f.id, SeverityLabel(f.severity), Escaped(f.title));
  }

  /** The same in both styles, once the colours are stripped. */
  lemma FindingShows(f: FindingDetail)
    ensures Shows(Rendered(FindingSpans(f), PlainStyle), f)
    ensures var bare := Unstyled(Rendered(FindingSpans(f), ColorStyle));
            bare.Some? && Shows(bare.value, f)
  {
    hide Shows, Rendered, FindingSpans, Unstyled;
    PlainShows(f);
    FindingColorIsInvisible(f);
  }

  // ---------- List and search rows ----------

  function Unpadded(s: string): (r: string)
  {
    if s != "" && s[0] == ' ' then Unpadded(s[1..]) else s
  }

  function After(s: string, tag: string): (r: Option<string>)
  {
    if tag <= s then Some(s[|tag|..]) else None
  }

  /** Right-aligned in at least five columns, blanks only as needed. */
  ghost predicate NumberShows(s: string, n: int)
  {
    |s| >= 5 && (|s| > 5 ==> s[0] != ' ') && ReadInt(Unpadded(s)) == n
  }

  ghost predicate TaggedNumber(s: string, tag: string, n: int)
  {
    After(s, tag).Some? && ReadInt(After(s, tag).value) == n
  }

  ghost predicate TaggedState(s: string, state: FindingState)
  {
    After(s, "state=").Some? && StateOf(After(s, "state=").value) == Some(state)
  }

  /** The eight columns of a list row, each read for what it is. */
  ghost predicate ListRowShows(row: string, f: FindingSummary)
  {
    var c := Columns(row);
    && |c| == 8
    && NumberShows(c[0], f.id) && TaggedNumber(c[1], "job=", f.jobId)
    && SeverityOf(c[2]) == Some(f.severity) && c[3] == Escaped(f.scannerId) && TaggedState(c[4], f.state)
    && After(c[5], "verify=") == Some(if f.verificationRequired then "true" else "false")
    && PlaceShows(c[6], "-", f.filePath, f.lineStart, None) && c[7] == Escaped(f.title)
  }

  ghost predicate SearchRowShows(row: string, f: FindingSummary)
  {
    var c := Columns(row);
    && |c| == 6
    && NumberShows(c[0], f.id)
    && SeverityOf(c[1]) == Some(f.severity) && c[2] == Escaped(f.scannerId) && TaggedState(c[3], f.state)
    && PlaceShows(c[4], "-", f.filePath, f.lineStart, None) && c[5] == Escaped(f.title)
  }

  lemma {:induction false} UnpaddedFill(k: nat, s: string)
    requires s != "" && s[0] != ' '
    ensures Unpadded(Fill(' ', k) + s) == s
  {
    if k == 0 {
      assert Fill(' ', 0) + s == s;
    } else {
      assert (Fill(' ', k) + s)[1..] == Fill(' ', k - 1) + s;
      UnpaddedFill(k - 1, s);
    }
  }

  lemma NumberIsShown(n: int)
    ensures NumberShows(RightAligned(n), n)
  {
    hide ReadInt;
    var d := DecInt(n);
    DecIntReads(n);
    UnpaddedFill(if |d| < 5 then 5 - |d| else 0, d);
    assert Fill(' ', 0) + d == d;
  }

  lemma AfterTag(tag: string, s: string)
    ensures After(tag + s, tag) == Some(s)
  {
  }

  /** Every column of every row reads as the field it is for. */
  lemma RowsShowFields(f: FindingSummary)
    ensures ListRowShows(ListRow(f), f) && SearchRowShows(SearchRow(f), f)
  {
    hide Columns, JoinTabs, Tabs, RightAligned, NumberShows, Escaped, DecInt, ReadInt, SeverityDebug, SeverityOf,
      StateName, StateOf, SummaryLocation, PlaceShows, After, ListRow, SearchRow;
    RowColumns(f);
    NumberIsShown(f.id);
    DecIntReads(f.jobId);
    AfterTag("job=", DecInt(f.jobId));
    SeverityReads(f.severity);
    StateReads(f.state);
    AfterTag("state=", StateName(f.state));
    AfterTag("verify=", BoolName(f.verificationRequired));
    SummaryPlace(f);
  }

  lemma SummaryPlace(f: FindingSummary)
    ensures PlaceShows(Escaped(SummaryLocation(f)), "-", f.filePath, f.lineStart, None)
  {
    hide Escaped, PlaceShows, DecInt;
    ColonVisible();
    PlaceIsShown("-", f.filePath, f.lineStart, None);
    assert SummaryLocation(f) == PlaceText("-", f.filePath, f.lineStart, None);
  }
}
