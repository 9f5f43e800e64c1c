/**
 Data blocks inside a prompt. A block is closed by a tag that carries a random
 boundary of 32 lowercase hex digits; the boundary is chosen so that no payload
 holds it. In marked mode the payload is also rewritten: each literal marker is
 doubled, and a separator follows every 32 original scalars when more remain.
 */
module PromptBlocks {
  import opened Bytes
  import opened Hexadecimal
  import opened PromptReader
  import opened Search
  import opened Wrappers

  datatype DataMode = Delimited | Marked

  const MARKER := '\U{241E}'
  const GROUP := 32

  // ---------- The marked codec ----------

  function Mark(c: char): (s: string)
    ensures s != ""
  {
    if c == MARKER then [MARKER, MARKER] else [c]
  }

  function Quoted(s: string): (r: string)
  {
    if s == "" then "" else Mark(s[0]) + Quoted(s[1..])
  }

  const SEPARATOR: string := [MARKER, '.']

  /** Groups of 32 scalars, markers quoted within each, a separator between groups. */
  function Canonical(s: string): (r: string)
    decreases |s|
  {
    if |s| <= GROUP then Quoted(s) else Quoted(s[..GROUP]) + SEPARATOR + Canonical(s[GROUP..])
  }

  function Markers(s: string): (n: nat)
  {
    if s == "" then 0 else (if s[0] == MARKER then 1 else 0) + Markers(s[1..])
  }

  lemma {:induction false} MarkersSplit(s: string, k: nat)
    requires k <= |s|
    ensures Markers(s) == Markers(s[..k]) + Markers(s[k..])
  {
    if k > 0 {
      MarkersSplit(s[1..], k - 1);
      assert s[1..][..k - 1] == s[..k][1..] && s[1..][k - 1..] == s[k..];
    }
  }

  lemma {:induction false} QuotedLength(s: string)
    ensures |Quoted(s)| == |s| + Markers(s)
  {
    if s != "" {
      QuotedLength(s[1..]);
    }
  }

  /** The encoding adds one character for each marker and two between every 32 scalars and the next. */
  lemma {:induction false} CanonicalLength(s: string)
    ensures |Canonical(s)| == |s| + Markers(s) + (if s == "" then 0 else (|s| - 1) / 32 * 2)
    decreases |s|
  {
    if |s| <= GROUP {
      QuotedLength(s);
    } else {
      QuotedLength(s[..GROUP]);
      MarkersSplit(s, GROUP);
      CanonicalLength(s[GROUP..]);
    }
  }

  /** The encoder's own account of its loop: `count` scalars of the current group are written. */
  function EncodedFrom(s: string, count: nat): (r: string)
    requires count < GROUP
  {
    if s == "" then ""
    else if count + 1 < GROUP then Mark(s[0]) + EncodedFrom(s[1..], count + 1)
    else Mark(s[0]) + (if |s| > 1 then SEPARATOR else "") + EncodedFrom(s[1..], 0)
  }

  function Encoding(s: string, mode: DataMode): (r: string)
  {
    if mode == Delimited then s else Canonical(s)
  }

  lemma {:induction false} EncodedGroup(s: string, count: nat)
    requires count < GROUP
    ensures var left := GROUP - count;
            EncodedFrom(s, count) == if |s| <= left then Quoted(s)
                                     else Quoted(s[..left]) + SEPARATOR + EncodedFrom(s[left..], 0)
  {
    hide Mark;
    var left := GROUP - count;
    if s == "" {
    } else if count + 1 < GROUP {
      EncodedGroup(s[1..], count + 1);
      if |s| > left {
        assert s[..left][1..] == s[1..][..left - 1] && s[1..][left - 1..] == s[left..];
        ConcatAssoc(Mark(s[0]), Quoted(s[1..][..left - 1]), SEPARATOR);
        ConcatAssoc(Mark(s[0]), Quoted(s[1..][..left - 1]) + SEPARATOR, EncodedFrom(s[left..], 0));
      }
    } else {
      assert s[..1][1..] == "" && Quoted(s[..1]) == Mark(s[0]) + Quoted(s[..1][1..]);
      assert |s| == 1 ==> s[1..] == "";
    }
  }

  /** The streaming encoder and the group-wise definition agree. */
  lemma {:induction false} EncodedIsCanonical(s: string)
    ensures EncodedFrom(s, 0) == Canonical(s)
    decreases |s|
  {
    EncodedGroup(s, 0);
    if |s| > GROUP {
      EncodedIsCanonical(s[GROUP..]);
    }
  }

  /** One turn of the encoder's loop. */
  lemma EncodedStep(text: string, i: nat, count: nat)
    requires i < |text| && count < GROUP
    ensures var full := count + 1 == GROUP;
            EncodedFrom(text[i..], count) ==
            Mark(text[i]) + (if full && i + 1 < |text| then SEPARATOR else "")
            + EncodedFrom(text[i + 1..], if full then 0 else count + 1)
  {
    assert text[i..][1..] == text[i + 1..];
    assert Mark(text[i]) + "" == Mark(text[i]);
  }

  method Encode(text: string, mode: DataMode) returns (out: string)
    ensures out == Encoding(text, mode)
  {
    hide EncodedFrom, Canonical;
    out := "";
    var i, count := 0, 0;
    assert text[0..] == text;
    while i < |text|
      invariant 0 <= i <= |text| && 0 <= count < GROUP
      invariant mode == Delimited ==> out == text[..i]
      invariant mode == Marked ==> out + EncodedFrom(text[i..], count) == EncodedFrom(text, 0)
    {
      var ch := text[i];
      ghost var before := out;
      EncodedStep(text, i, count);
      out := out + [ch];
      if mode == Marked {
        if ch == MARKER {
          out := out + [ch];
        }
        count := count + 1;
        if count == GROUP {
          count := 0;
          if i + 1 < |text| {
            out := out + [MARKER];
            out := out + ['.'];
          }
        }
        ghost var step := Mark(ch) + (if count == 0 && i + 1 < |text| then SEPARATOR else "");
        assert out == before + step;
        ConcatAssoc(before, step, EncodedFrom(text[i + 1..], count));
      }
      i := i + 1;
    }
    assert text[..i] == text && text[i..] == "";
    NothingEncoded(count);
    EncodedIsCanonical(text);
  }

  lemma NothingEncoded(count: nat)
    requires count < GROUP
    ensures EncodedFrom("", count) == ""
  {
  }

  /** Undoes quoting and drops separators; fails on any other use of the marker. */
  function Unmarked(p: string): (r: Option<string>)
    decreases |p|
  {
    if p == "" then Some("")
    else if p[0] != MARKER then
      Joined([p[0]], Unmarked(p[1..]))
    else if |p| < 2 then None
    else if p[1] == MARKER then
      Joined([MARKER], Unmarked(p[2..]))
    else if p[1] == '.' then Unmarked(p[2..])
    else None
  }

  function Decoding(p: string, mode: DataMode): (r: Option<string>)
  {
    if mode == Delimited then Some(p)
    else
      var recovered := Unmarked(p);
      if recovered.Some? && p == Canonical(recovered.value) then recovered else None
  }

  method DecodePayload(p: string, mode: DataMode) returns (r: Option<string>)
    ensures r == Decoding(p, mode)
  {
    if mode == Delimited {
      return Some(p);
    }
    var recovered, tail := "", p;
    EmptyJoin(Unmarked(p));
    while tail != ""
      invariant Unmarked(p) == Joined(recovered, Unmarked(tail))
      decreases |tail|
    {
      if tail[0] != MARKER {
        JoinStep(recovered, tail[0], Unmarked(tail[1..]));
        recovered := recovered + [tail[0]];
        tail := tail[1..];
      } else if |tail| < 2 {
        return None;
      } else if tail[1] == MARKER {
        JoinStep(recovered, MARKER, Unmarked(tail[2..]));
        recovered := recovered + [MARKER];
        tail := tail[2..];
      } else if tail[1] == '.' {
        tail := tail[2..];
      } else {
        return None;
      }
    }
    assert recovered + "" == recovered;
    return if p == Canonical(recovered) then Some(recovered) else None;
  }

  /** What is recovered when `rest` follows `prefix`. */
  function Joined(prefix: string, rest: Option<string>): (r: Option<string>)
  {
    if rest.None? then None else Some(prefix + rest.value)
  }

  lemma EmptyJoin(rest: Option<string>)
    ensures Joined("", rest) == rest
  {
    if rest.Some? {
      assert "" + rest.value == rest.value;
    }
  }

  lemma JoinStep(prefix: string, c: char, rest: Option<string>)
    ensures Joined(prefix, Joined([c], rest)) == Joined(prefix + [c], rest)
  {
    if rest.Some? {
      assert prefix + ([c] + rest.value) == (prefix + [c]) + rest.value;
    }
  }

  lemma UnmarkedMark(c: char, tail: string)
    ensures Unmarked(Mark(c) + tail) == Joined([c], Unmarked(tail))
  {
    var whole := Mark(c) + tail;
    assert whole[|Mark(c)|..] == tail;
  }

  lemma {:induction false} UnmarkedQuoted(s: string, rest: string)
    requires Unmarked(rest).Some?
    ensures Unmarked(Quoted(s) + rest) == Some(s + Unmarked(rest).value)
  {
    if s == "" {
      assert Quoted(s) + rest == rest && s + Unmarked(rest).value == Unmarked(rest).value;
    } else {
      UnmarkedQuoted(s[1..], rest);
      var tail := Quoted(s[1..]) + rest;
      assert Quoted(s) + rest == Mark(s[0]) + tail;
      UnmarkedMark(s[0], tail);
      assert s + Unmarked(rest).value == [s[0]] + (s[1..] + Unmarked(rest).value);
    }
  }

  lemma {:induction false} UnmarkedCanonical(s: string)
    ensures Unmarked(Canonical(s)) == Some(s)
    decreases |s|
  {
    if |s| <= GROUP {
      UnmarkedQuoted(s, "");
      assert Quoted(s) + "" == Quoted(s) && s + "" == s;
    } else {
      var rest := SEPARATOR + Canonical(s[GROUP..]);
      assert rest[2..] == Canonical(s[GROUP..]);
      UnmarkedCanonical(s[GROUP..]);
      UnmarkedQuoted(s[..GROUP], rest);
      assert Canonical(s) == Quoted(s[..GROUP]) + rest;
      assert s == s[..GROUP] + s[GROUP..];
    }
  }

  /** Decoding inverts encoding, and accepts nothing but encodings, in both modes. */
  lemma CodecBijection(s: string, p: string, mode: DataMode)
    ensures Decoding(Encoding(s, mode), mode) == Some(s)
    ensures Decoding(p, mode).Some? ==> p == Encoding(Decoding(p, mode).value, mode)
  {
    UnmarkedCanonical(s);
  }

  // ---------- Boundaries ----------

  predicate IsBoundary(b: string)
  {
    |b| == 32 && AllHex(b)
  }

  lemma {:induction false} PrefixSurvives(s: string, count: nat, b: string)
    requires count < GROUP && AllHex(b) && b <= EncodedFrom(s, count)
    ensures b <= s
  {
    if b != "" {
      var e := EncodedFrom(s, count);
      assert e[0] == b[0];
      assert s[0] == b[0];
      if |b| > 1 {
        assert e[1] == b[1];
        var next := if count + 1 < GROUP then count + 1 else 0;
        assert e == [s[0]] + EncodedFrom(s[1..], next);
        assert b[1..] <= EncodedFrom(s[1..], next);
        PrefixSurvives(s[1..], next, b[1..]);
      }
    }
  }

  lemma {:induction false} OccurrenceSurvives(s: string, count: nat, b: string, i: nat)
    requires count < GROUP && AllHex(b) && b != "" && OccursAt(EncodedFrom(s, count), b, i)
    ensures Contains(s, b)
  {
    var e := EncodedFrom(s, count);
    assert e[i] == b[0];
    if i == 0 {
      assert b <= e;
      PrefixSurvives(s, count, b);
      assert OccursAt(s, b, 0);
    } else {
      var next := if count + 1 < GROUP then count + 1 else 0;
      var rest := EncodedFrom(s[1..], next);
      var head := |e| - |rest|;
      assert e[head..] == rest;
      assert i >= head;
      OccursInDrop(e, head, b, i - head);
      OccurrenceSurvives(s[1..], next, b, i - head);
      var k :| OccursAt(s[1..], b, k);
      OccursInDrop(s, 1, b, k);
    }
  }

  /** A boundary absent from the original is absent from its encoding. */
  lemma EncodingKeepsBoundaryOut(s: string, mode: DataMode, b: string)
    requires AllHex(b) && b != "" && !Contains(s, b)
    ensures !Contains(Encoding(s, mode), b)
  {
    if Contains(Encoding(s, mode), b) {
      var i :| OccursAt(Encoding(s, mode), b, i);
      EncodedIsCanonical(s);
      if mode == Marked {
        OccurrenceSurvives(s, 0, b, i);
      }
    }
  }

  // ---------- Closing tags ----------

  const OPEN_FIELD := "<loupe-data field=\""
  const OPEN_SOURCE := "\" source=\""
  const OPEN_BOUNDARY := "\" boundary=\""
  const OPEN_END := "\">\n"
  const CLOSE_HEAD := "\n</loupe-data boundary=\""
  const CLOSE_TAIL := "\">\n"

  function Close(b: string): (s: string)
  {
    CLOSE_HEAD + b + CLOSE_TAIL
  }

  function Opening(field: string, b: string): (s: string)
  {
    OPEN_FIELD + field + OPEN_SOURCE + "agent" + OPEN_BOUNDARY + b + OPEN_END
  }

  /** A closing tag holds a line feed only at its two ends. */
  lemma CloseShape(b: string)
    requires IsBoundary(b)
    ensures var c := Close(b);
            |c| == 59 && c[0] == '\n' && c[24..56] == b && forall i :: 0 < i < 58 ==> c[i] != '\n'
  {
    assert |CLOSE_HEAD| == 24 && |CLOSE_TAIL| == 3;
    assert forall i :: 0 < i < 24 ==> CLOSE_HEAD[i] != '\n';
    assert forall i :: 0 <= i < 2 ==> CLOSE_TAIL[i] != '\n';
  }

  lemma FeedAtEnd(b: string, d: nat)
    requires IsBoundary(b) && 0 < d < |Close(b)| && Close(b)[d] == '\n'
    ensures d == 58
  {
    CloseShape(b);
  }

  /** A closing tag found before the payload ends carries the boundary inside the payload. */
  lemma EarlyCloseHoldsBoundary(p: string, b: string, rest: string, j: nat)
    requires IsBoundary(b) && j < |p| && OccursAt(p + Close(b) + rest, Close(b), j)
    ensures OccursAt(p, b, j + 24)
  {
    hide Close;
    CloseShape(b);
    var c := Close(b);
    var whole := p + c + rest;
    var window := whole[j..j + |c|];
    var d := |p| - j;
    if d < 59 {
      assert window[d] == whole[|p|] == c[0];
      FeedAtEnd(b, d);
    }
    assert window[24..56] == whole[j + 24..j + 56] == p[j + 24..j + 56];
  }

  /** The first closing tag after a payload without the boundary is the payload's own. */
  lemma FirstCloseIsOwn(p: string, b: string, rest: string)
    requires IsBoundary(b) && !Contains(p, b)
    ensures FirstFrom(p + Close(b) + rest, Close(b), 0) == Some(|p|)
  {
    hide Close;
    var c := Close(b);
    var whole := p + c + rest;
    assert whole[|p|..|p| + |c|] == c;
    assert OccursAt(whole, c, |p|);
    var first := FirstFrom(whole, c, 0);
    if first.Some? && first.value < |p| {
      EarlyCloseHoldsBoundary(p, b, rest, first.value);
    }
  }

  // ---------- Compositions ----------

  datatype Part = Instruction(text: string) | Data(field: string, value: string)

  function PartText(part: Part, b: string, mode: DataMode): (s: string)
  {
    match part
    case Instruction(text) => text
    case Data(field, value) => Opening(field, b) + Encoding(value, mode) + Close(b)
  }

  function PartsText(parts: seq<Part>, b: string, mode: DataMode): (s: string)
  {
    if parts == [] then "" else PartText(parts[0], b, mode) + PartsText(parts[1..], b, mode)
  }

  method Finish(preamble: string, parts: seq<Part>, b: string, mode: DataMode) returns (out: string)
    ensures out == preamble + PartsText(parts, b, mode)
  {
    hide Opening, Close, Encoding;
    out := preamble;
    var i := 0;
    assert parts[0..] == parts;
    while i < |parts|
      invariant 0 <= i <= |parts|
      invariant out + PartsText(parts[i..], b, mode) == preamble + PartsText(parts, b, mode)
    {
      assert parts[i..][1..] == parts[i + 1..];
      ghost var before := out;
      match parts[i] {
        case Instruction(text) =>
          out := out + text;
        case Data(field, value) =>
          var payload := Encode(value, mode);
          out := out + (Opening(field, b) + payload + Close(b));
      }
      ConcatAssoc(before, PartText(parts[i], b, mode), PartsText(parts[i + 1..], b, mode));
      i := i + 1;
    }
    assert parts[i..] == [];
  }

  /** The trusted span and field name before each payload, and the trusted text after the last. */
  datatype Recipe = Recipe(spans: seq<(string, string)>, suffix: string)

  function RecipeOf(trusted: string, parts: seq<Part>): (r: Recipe)
    decreases |parts|
  {
    if parts == [] then Recipe([], trusted)
    else match parts[0]
      case Instruction(text) => RecipeOf(trusted + text, parts[1..])
      case Data(field, _) =>
        var rest := RecipeOf("", parts[1..]);
        Recipe([(trusted, field)] + rest.spans, rest.suffix)
  }

  function Values(parts: seq<Part>): (r: seq<string>)
  {
    if parts == [] then []
    else if parts[0].Data? then [parts[0].value] + Values(parts[1..])
    else Values(parts[1..])
  }

  /** One block off the front: its decoded payload and what follows it. */
  function TakeBlock(tail: string, span: (string, string), b: string, mode: DataMode): (r: Option<(string, string)>)
  {
    var opening := span.0 + Opening(span.1, b);
    if !(opening <= tail) then None
    else
      var inner := tail[|opening|..];
      var at := FirstFrom(inner, Close(b), 0);
      if at.None? || FirstFrom(inner[..at.value], b, 0).Some? then None
      else
        var payload := Decoding(inner[..at.value], mode);
        if payload.None? then None else Some((payload.value, inner[at.value + |Close(b)|..]))
  }

  /** The payloads of a composition, or nothing when any byte of it is out of place. */
  function Decomposition(tail: string, spans: seq<(string, string)>, suffix: string, b: string, mode: DataMode)
    : (r: Option<seq<string>>)
    decreases |spans|
  {
    if spans == [] then (if tail == suffix then Some([]) else None)
    else
      var block := TakeBlock(tail, spans[0], b, mode);
      if block.None? then None
      else Prefixed([block.value.0], Decomposition(block.value.1, spans[1..], suffix, b, mode))
  }

  function Prefixed(first: seq<string>, rest: Option<seq<string>>): (r: Option<seq<string>>)
  {
    if rest.None? then None else Some(first + rest.value)
  }

  lemma PrefixedStep(first: seq<string>, x: string, rest: Option<seq<string>>)
    ensures Prefixed(first, Prefixed([x], rest)) == Prefixed(first + [x], rest)
    ensures Prefixed([], rest) == rest
  {
    if rest.Some? {
      assert first + ([x] + rest.value) == (first + [x]) + rest.value;
      assert [] + rest.value == rest.value;
    }
  }

  method NextBlock(tail: string, span: (string, string), b: string, mode: DataMode)
    returns (block: Option<(string, string)>)
    ensures block == TakeBlock(tail, span, b, mode)
  {
    hide Opening, Close, Decoding;
    var opening := span.0 + Opening(span.1, b);
    if !(opening <= tail) {
      return None;
    }
    var inner := tail[|opening|..];
    var at := FirstFrom(inner, Close(b), 0);
    if at.None? || FirstFrom(inner[..at.value], b, 0).Some? {
      return None;
    }
    var payload := DecodePayload(inner[..at.value], mode);
    if payload.None? {
      return None;
    }
    return Some((payload.value, inner[at.value + |Close(b)|..]));
  }

  method DecodeComposition(rendered: string, recipe: Recipe, b: string, mode: DataMode)
    returns (r: Option<seq<string>>)
    requires IsBoundary(b)
    ensures r == Decomposition(rendered, recipe.spans, recipe.suffix, b, mode)
  {
    hide TakeBlock;
    var tail, recovered: seq<string>, i := rendered, [], 0;
    ghost var whole := Decomposition(rendered, recipe.spans, recipe.suffix, b, mode);
    PrefixedStep([], "", whole);
    assert recipe.spans[0..] == recipe.spans;
    while i < |recipe.spans|
      invariant 0 <= i <= |recipe.spans|
      invariant whole == Prefixed(recovered, Decomposition(tail, recipe.spans[i..], recipe.suffix, b, mode))
    {
      assert recipe.spans[i..][1..] == recipe.spans[i + 1..];
      var block := NextBlock(tail, recipe.spans[i], b, mode);
      if block.None? {
        return None;
      }
      PrefixedStep(recovered, block.value.0,
                   Decomposition(block.value.1, recipe.spans[i + 1..], recipe.suffix, b, mode));
      recovered := recovered + [block.value.0];
      tail := block.value.1;
      i := i + 1;
    }
    assert recipe.spans[i..] == [];
    if tail != recipe.suffix {
      return None;
    }
    assert recovered + [] == recovered;
    return Some(recovered);
  }

  lemma TakeBlockAt(opening: string, span: (string, string), e: string, rest: string, b: string, mode: DataMode)
    requires opening == span.0 + Opening(span.1, b)
    requires FirstFrom(e + Close(b) + rest, Close(b), 0) == Some(|e|) && !Contains(e, b) && Decoding(e, mode).Some?
    ensures TakeBlock(opening + (e + Close(b) + rest), span, b, mode) == Some((Decoding(e, mode).value, rest))
  {
    hide Opening, Close, Decoding;
    var inner := e + Close(b) + rest;
    var tail := opening + inner;
    assert opening <= tail && tail[|opening|..] == inner;
    assert inner[..|e|] == e && inner[|e| + |Close(b)|..] == rest;
  }

  lemma Regroup(a: string, b: string, c: string, d: string, e: string)
    ensures a + (b + c + d + e) == (a + b) + (c + d + e)
  {
  }

  lemma TakeFramed(span: (string, string), value: string, rest: string, b: string, mode: DataMode)
    requires IsBoundary(b) && !Contains(Encoding(value, mode), b)
    ensures TakeBlock(span.0 + (Opening(span.1, b) + Encoding(value, mode) + Close(b) + rest), span, b, mode)
            == Some((value, rest))
  {
    hide Opening, Close, Encoding, Decoding, TakeBlock, Contains;
    var e := Encoding(value, mode);
    FirstCloseIsOwn(e, b, rest);
    CodecBijection(value, e, mode);
    TakeBlockAt(span.0 + Opening(span.1, b), span, e, rest, b, mode);
    Regroup(span.0, Opening(span.1, b), e, Close(b), rest);
  }

  lemma TakeOwnBlock(trusted: string, field: string, value: string, rest: string, b: string, mode: DataMode)
    requires IsBoundary(b) && !Contains(value, b)
    ensures TakeBlock(trusted + (PartText(Data(field, value), b, mode) + rest), (trusted, field), b, mode)
            == Some((value, rest))
  {
    hide Opening, Close, Encoding, TakeBlock, Contains;
    EncodingKeepsBoundaryOut(value, mode, b);
    TakeFramed((trusted, field), value, rest, b, mode);
  }

  /**
   Whatever the trusted spans, field names and payloads, decoding a rendered
   composition returns exactly the payloads, provided no payload holds the boundary.
   */
  lemma {:induction false} CompositionRoundTrip(trusted: string, parts: seq<Part>, b: string, mode: DataMode)
    requires IsBoundary(b)
    requires forall v :: v in Values(parts) ==> !Contains(v, b)
    ensures var recipe := RecipeOf(trusted, parts);
            Decomposition(trusted + PartsText(parts, b, mode), recipe.spans, recipe.suffix, b, mode)
            == Some(Values(parts))
    decreases |parts|
  {
    hide PartText, TakeBlock;
    if parts == [] {
      assert trusted + "" == trusted;
    } else {
      var rest := PartsText(parts[1..], b, mode);
      match parts[0] {
        case Instruction(text) =>
          CompositionRoundTrip(trusted + text, parts[1..], b, mode);
          InstructionText(text, b, mode);
          assert trusted + PartsText(parts, b, mode) == (trusted + text) + rest;
        case Data(field, value) =>
          TakeOwnBlock(trusted, field, value, rest, b, mode);
          CompositionRoundTrip("", parts[1..], b, mode);
          assert "" + rest == rest;
          assert RecipeOf(trusted, parts).spans[1..] == RecipeOf("", parts[1..]).spans;
      }
    }
  }

  /** A composition written out from its spans and payloads. */
  function Framed(spans: seq<(string, string)>, vs: seq<string>, suffix: string, b: string, mode: DataMode)
    : (s: string)
    requires |vs| == |spans|
  {
    if spans == [] then suffix
    else
      var rest := Framed(spans[1..], vs[1..], suffix, b, mode);
      spans[0].0 + (Opening(spans[0].1, b) + Encoding(vs[0], mode) + Close(b) + rest)
  }

  /** A block taken off the front stood there whole, its payload canonical and free of the boundary. */
  lemma TakenBlock(tail: string, span: (string, string), b: string, mode: DataMode)
    requires TakeBlock(tail, span, b, mode).Some?
    ensures var (value, rest) := TakeBlock(tail, span, b, mode).value;
            && tail == span.0 + (Opening(span.1, b) + Encoding(value, mode) + Close(b) + rest)
            && !Contains(Encoding(value, mode), b)
  {
    hide Opening, Close, Decoding, Encoding;
    var opening := span.0 + Opening(span.1, b);
    var inner := tail[|opening|..];
    var at := FirstFrom(inner, Close(b), 0).value;
    var (value, rest) := TakeBlock(tail, span, b, mode).value;
    CodecBijection(value, inner[..at], mode);
    assert inner == inner[..at] + Close(b) + rest;
    Regroup(span.0, Opening(span.1, b), inner[..at], Close(b), rest);
  }

  ghost predicate NoneHolds(vs: seq<string>, b: string, mode: DataMode)
  {
    forall v :: v in vs ==> !Contains(Encoding(v, mode), b)
  }

  /**
   The decoder accepts exactly the texts framed from its recipe, and returns exactly the
   payloads framed: no other text decodes, and no framed text decodes to anything else.
   */
  lemma {:induction false} ExactlyFramed(text: string, spans: seq<(string, string)>, suffix: string, b: string,
                                         mode: DataMode, vs: seq<string>)
    requires IsBoundary(b)
    ensures Decomposition(text, spans, suffix, b, mode) == Some(vs)
            <==> |vs| == |spans| && text == Framed(spans, vs, suffix, b, mode) && NoneHolds(vs, b, mode)
    decreases |spans|
  {
    hide TakeBlock, Opening, Close, Encoding, Contains;
    if spans != [] {
      if Decomposition(text, spans, suffix, b, mode) == Some(vs) {
        var (value, rest) := TakeBlock(text, spans[0], b, mode).value;
        TakenBlock(text, spans[0], b, mode);
        assert vs[0] == value && vs == [value] + vs[1..];
        ExactlyFramed(rest, spans[1..], suffix, b, mode, vs[1..]);
      }
      if |vs| == |spans| && text == Framed(spans, vs, suffix, b, mode) && NoneHolds(vs, b, mode) {
        var rest := Framed(spans[1..], vs[1..], suffix, b, mode);
        TakeFramed(spans[0], vs[0], rest, b, mode);
        ExactlyFramed(rest, spans[1..], suffix, b, mode, vs[1..]);
        assert vs == [vs[0]] + vs[1..];
      }
    }
  }

  // ---------- Reading a block without a recipe ----------

  lemma Respelled(t: string, n: string, f: string, q: string, m: string, g: string, o: string, h: string, e: string,
                  rest: string)
    ensures ((t + n) + f + (q + m) + g + (q + o) + h + (q + e)) + rest
            == t + ((n + f + q) + ((m + g + q) + ((o + h + q) + (e + rest))))
  {
    var tail := (o + h + q) + (e + rest);
    assert (o + h + (q + e)) + rest == tail;
    assert (m + g + (q + o) + h + (q + e)) + rest == (m + g + q) + tail;
  }

  lemma OpeningSpelled(field: string, b: string, rest: string)
    ensures Opening(field, b) + rest
            == "<loupe-data" + (Spelled("field", field) + (Spelled("source", "agent")
               + (Spelled("boundary", b) + (">\n" + rest))))
  {
    var n, m, o := " field=\"", " source=\"", " boundary=\"";
    assert " " + "field" + "=\"" == n && " " + "source" + "=\"" == m && " " + "boundary" + "=\"" == o;
    assert OPEN_FIELD == "<loupe-data" + n && OPEN_SOURCE == "\"" + m && OPEN_BOUNDARY == "\"" + o;
    assert OPEN_END == "\"" + ">\n";
    Respelled("<loupe-data", n, field, "\"", m, "agent", o, b, ">\n", rest);
  }

  /** Every block names its field, its source and the boundary that its own closing tag carries. */
  lemma BlockReads(field: string, value: string, b: string, mode: DataMode, rest: string)
    requires IsBoundary(b) && '\"' !in field && !Contains(Encoding(value, mode), b)
    ensures ReadBlock(PartText(Data(field, value), b, mode) + rest)
            == Some((Block(field, "agent", b, Encoding(value, mode)), rest))
  {
    hide Opening, Encoding, Tag, Spelled, Contains, Close;
    var e := Encoding(value, mode);
    var after := e + Close(b) + rest;
    OpeningSpelled(field, b, after);
    NoQuote(b);
    TagReads(field, "agent", b, after);
    FirstCloseIsOwn(e, b, rest);
    CloseSpelled(b);
    assert after[..|e|] == e && after[|e| + |Close(b)|..] == rest;
    BlockText(Opening(field, b), e, Close(b), rest);
  }

  lemma NoQuote(b: string)
    requires AllHex(b)
    ensures '\"' !in b
  {
  }

  lemma CloseSpelled(b: string)
    ensures Close(b) == "\n</loupe-data boundary=\"" + b + "\">\n"
  {
  }

  lemma BlockText(a: string, e: string, c: string, rest: string)
    ensures (a + e + c) + rest == a + (e + c + rest)
  {
  }

  lemma {:induction false} PartsTextSplit(parts: seq<Part>, k: nat, b: string, mode: DataMode)
    requires k <= |parts|
    ensures PartsText(parts, b, mode) == PartsText(parts[..k], b, mode) + PartsText(parts[k..], b, mode)
  {
    hide PartText;
    if k == 0 {
      assert parts[0..] == parts;
    } else {
      PartsTextSplit(parts[1..], k - 1, b, mode);
      assert parts[1..][..k - 1] == parts[..k][1..] && parts[1..][k - 1..] == parts[k..];
      ConcatAssoc(PartText(parts[0], b, mode), PartsText(parts[..k][1..], b, mode), PartsText(parts[k..], b, mode));
    }
  }

  /** Where part `k` of a composition starts. */
  function PartAt(preamble: string, parts: seq<Part>, b: string, mode: DataMode, k: nat): (at: nat)
    requires k <= |parts|
  {
    |preamble| + |PartsText(parts[..k], b, mode)|
  }

  /** The text after part `k`. */
  function TailAfter(out: string, preamble: string, parts: seq<Part>, b: string, mode: DataMode, k: nat): (s: string)
    requires k <= |parts|
  {
    var at := PartAt(preamble, parts, b, mode, k);
    if at <= |out| then out[at..] else ""
  }

  /** At its place in the text, part `k` is an instruction verbatim or a block that reads as the part. */
  ghost predicate PartReads(out: string, preamble: string, parts: seq<Part>, b: string, mode: DataMode, k: nat)
    requires k < |parts|
  {
    var here, next := TailAfter(out, preamble, parts, b, mode, k), TailAfter(out, preamble, parts, b, mode, k + 1);
    match parts[k]
    case Instruction(text) => here == text + next
    case Data(field, value) => '\"' !in field ==>
        exists payload :: ReadBlock(here) == Some((Block(field, "agent", b, payload), next))
                          && Decoding(payload, mode) == Some(value)
  }

  lemma TailIs(preamble: string, parts: seq<Part>, b: string, mode: DataMode, k: nat)
    requires k <= |parts|
    ensures TailAfter(preamble + PartsText(parts, b, mode), preamble, parts, b, mode, k)
            == PartsText(parts[k..], b, mode)
  {
    hide PartsText;
    PartsTextSplit(parts, k, b, mode);
  }

  /** Every part of every composition, in its place. */
  lemma PartIsRead(preamble: string, parts: seq<Part>, b: string, mode: DataMode, k: nat)
    requires IsBoundary(b) && k < |parts|
    requires parts[k].Data? ==> !Contains(Encoding(parts[k].value, mode), b)
    ensures PartReads(preamble + PartsText(parts, b, mode), preamble, parts, b, mode, k)
  {
    hide PartText, TailAfter, Encoding, Decoding, ReadBlock, Contains;
    TailIs(preamble, parts, b, mode, k);
    TailIs(preamble, parts, b, mode, k + 1);
    var rest := PartsText(parts[k + 1..], b, mode);
    assert parts[k..][1..] == parts[k + 1..];
    match parts[k] {
      case Instruction(text) => InstructionText(text, b, mode);
      case Data(field, value) =>
        CodecBijection(value, Encoding(value, mode), mode);
        if '\"' !in field {
          BlockReads(field, value, b, mode, rest);
        }
    }
  }

  lemma InstructionText(text: string, b: string, mode: DataMode)
    ensures PartText(Instruction(text), b, mode) == text
  {
  }

  // ---------- Choosing a boundary ----------

  lemma AsciiUtf8(b: string)
    requires AllHex(b)
    ensures |Utf8(b)| == |b| && forall i :: 0 <= i < |b| ==> Utf8(b)[i] == b[i] as int
  {
    AsciiBytes(b);
  }

  lemma {:induction false} Utf8Prefix(s: string, b: string)
    requires AllHex(b) && Utf8(b) <= Utf8(s)
    ensures b <= s
  {
    if b != "" {
      AsciiUtf8(b);
      assert Utf8(s)[0] == b[0] as int;
      assert EncodeScalar(s[0]) == [b[0] as int];
      assert Utf8(b[1..]) == Utf8(b)[1..] && Utf8(s[1..]) == Utf8(s)[1..];
      Utf8Prefix(s[1..], b[1..]);
    }
  }

  /** No byte below 0x80 lies inside the encoding of a scalar that it is not. */
  lemma PastTheHead(s: string, j: nat)
    requires s != "" && 0 < j < |Utf8(s)| && Utf8(s)[j] < 0x80
    ensures j >= |EncodeScalar(s[0])|
  {
    assert Utf8(s) == EncodeScalar(s[0]) + Utf8(s[1..]);
  }

  lemma {:induction false} Utf8Occurrence(s: string, b: string, j: nat)
    requires AllHex(b) && b != "" && OccursAt(Utf8(s), Utf8(b), j)
    ensures Contains(s, b)
    decreases |s|
  {
    hide EncodeScalar;
    AsciiUtf8(b);
    var u := Utf8(s);
    assert u[j..j + |b|][0] == u[j];
    if j == 0 {
      assert Utf8(b) <= u;
      Utf8Prefix(s, b);
      assert OccursAt(s, b, 0);
    } else {
      var head := EncodeScalar(s[0]);
      PastTheHead(s, j);
      assert u[|head|..] == Utf8(s[1..]);
      OccursInDrop(u, |head|, Utf8(b), j - |head|);
      Utf8Occurrence(s[1..], b, j - |head|);
      var k :| OccursAt(s[1..], b, k);
      OccursInDrop(s, 1, b, k);
    }
  }

  /** Searching the UTF-8 bytes for a boundary is searching the text. */
  lemma Utf8Contains(s: string, b: string)
    requires AllHex(b) && b != ""
    ensures Contains(Utf8(s), Utf8(b)) <==> Contains(s, b)
  {
    hide Utf8;
    if Contains(Utf8(s), Utf8(b)) {
      var j :| OccursAt(Utf8(s), Utf8(b), j);
      Utf8Occurrence(s, b, j);
    }
    if Contains(s, b) {
      var i :| OccursAt(s, b, i);
      assert s == s[..i] + b + s[i + |b|..];
      Utf8Concat(s[..i] + b, s[i + |b|..]);
      Utf8Concat(s[..i], b);
      assert OccursAt(Utf8(s), Utf8(b), |Utf8(s[..i])|);
    }
  }

  lemma NothingInEmpty(boundary: seq<u8>)
    requires |boundary| == 32
    ensures !Contains([], boundary)
  {
  }

  /** A sliding window over a byte stream, looking for one boundary. */
  class BoundaryScan {
    const boundary: seq<u8>
    const tail: array<u8>
    var used: nat
    var found: bool
    ghost var seen: seq<u8>

    ghost predicate Valid()
      reads this, tail
    {
      && |boundary| == tail.Length == 32
      && used <= 32 && tail[..used] == Window(seen)
      && (found <==> Contains(seen, boundary))
    }

    constructor (boundary: seq<u8>)
      requires |boundary| == 32
      ensures Valid() && seen == [] && this.boundary == boundary && fresh(tail)
    {
      hide Contains;
      this.boundary := boundary;
      tail := new u8[32];
      used := 0;
      found := false;
      seen := [];
      NothingInEmpty(boundary);
    }

    method Push(bytes: seq<u8>)
      requires Valid()
      modifies this, tail
      ensures Valid() && seen == old(seen) + bytes
    {
      hide Valid;
      var i := 0;
      while i < |bytes|
        invariant 0 <= i <= |bytes| && Valid() && seen == old(seen) + bytes[..i]
      {
        PushByte(bytes[i]);
        i := i + 1;
      }
    }

    method PushText(text: string)
      requires Valid()
      modifies this, tail
      ensures Valid() && seen == old(seen) + Utf8(text)
    {
      hide Valid, Utf8, EncodeScalar;
      var i := 0;
      Utf8Empty();
      while i < |text|
        invariant 0 <= i <= |text| && Valid() && seen == old(seen) + Utf8(text[..i])
      {
        Utf8Append(text[..i], text[i]);
        assert text[..i + 1] == text[..i] + [text[i]];
        ConcatAssoc(old(seen), Utf8(text[..i]), EncodeScalar(text[i]));
        Push(EncodeScalar(text[i]));
        i := i + 1;
      }
      assert text[..i] == text;
    }

    method Found() returns (r: bool)
      requires Valid()
      ensures r <==> Contains(seen, boundary)
    {
      r := found;
    }

    method PushByte(byte: u8)
      requires Valid()
      modifies this, tail
      ensures Valid() && seen == old(seen) + [byte]
    {
      hide Contains, Window;
      WindowStep(seen, byte);
      FoundStep(seen, byte, boundary);
      seen := seen + [byte];
      Slide(byte);
      found := found || (used == 32 && tail[..used] == boundary);
    }

    method Slide(byte: u8)
      requires tail.Length == 32 && used <= 32
      modifies `used, tail
      ensures used <= 32 && tail[..used] == (if old(used) < 32 then old(tail[..used]) else old(tail[1..used])) + [byte]
    {
      if used < 32 {
        tail[used] := byte;
        used := used + 1;
      } else {
        forall k | 0 <= k < 31 {
          tail[k] := tail[k + 1];
        }
        tail[31] := byte;
      }
    }
  }

  /** The last 32 bytes, or all of them. */
  function Window(s: seq<u8>): (w: seq<u8>)
    ensures |w| <= 32
  {
    if |s| < 32 then s else s[|s| - 32..]
  }

  lemma WindowStep(s: seq<u8>, x: u8)
    ensures Window(s + [x]) == (if |Window(s)| < 32 then Window(s) else Window(s)[1..]) + [x]
  {
  }

  lemma FoundStep(s: seq<u8>, x: u8, b: seq<u8>)
    requires |b| == 32
    ensures Contains(s + [x], b) <==> Contains(s, b) || Window(s + [x]) == b
  {
    hide Contains;
    WindowAtEnd(s, x, b);
  }

  lemma OccursInLonger(s: seq<u8>, x: u8, b: seq<u8>, i: int)
    requires b != []
    ensures OccursAt(s + [x], b, i)
            <==> OccursAt(s, b, i) || (0 <= i == |s| + 1 - |b| && (s + [x])[i..] == b)
  {
    var t := s + [x];
    if 0 <= i <= |s| - |b| {
      assert s[i..i + |b|] == t[i..i + |b|];
    } else if 0 <= i == |t| - |b| {
      assert t[i..] == t[i..i + |b|];
    }
  }

  /** A new occurrence after one more byte can only end at that byte. */
  lemma WindowAtEnd(s: seq<u8>, x: u8, b: seq<u8>)
    requires b != []
    ensures Contains(s + [x], b) <==> Contains(s, b) || (|s| + 1 >= |b| && (s + [x])[|s| + 1 - |b|..] == b)
  {
    hide OccursAt;
    if i :| OccursAt(s, b, i) {
      OccursInLonger(s, x, b, i);
    }
    if i :| OccursAt(s + [x], b, i) {
      OccursInLonger(s, x, b, i);
    }
    OccursInLonger(s, x, b, |s| + 1 - |b|);
  }

  method ScanFor(text: string, b: string) returns (found: bool)
    requires IsBoundary(b)
    ensures found <==> Contains(text, b)
  {
    hide Utf8, Contains;
    AsciiUtf8(b);
    Utf8Contains(text, b);
    var scan := new BoundaryScan(Utf8(b));
    scan.PushText(text);
    assert scan.seen == Utf8(text);
    found := scan.Found();
  }

  lemma Utf8Empty()
    ensures Utf8("") == []
  {
  }

  lemma Utf8Append(s: string, c: char)
    ensures Utf8(s + [c]) == Utf8(s) + EncodeScalar(c)
  {
    Utf8Concat(s, [c]);
    assert Utf8([c]) == EncodeScalar(c) + Utf8([c][1..]);
  }

  ghost predicate Collision(parts: seq<Part>, b: string)
  {
    exists k :: 0 <= k < |parts| && parts[k].Data? && Contains(parts[k].value, b)
  }

  /** Looks in the original and in the encoding; the answer is the original's alone. */
  method Collides(parts: seq<Part>, b: string, mode: DataMode) returns (r: bool)
    requires IsBoundary(b)
    ensures r <==> Collision(parts, b)
  {
    var i := 0;
    while i < |parts|
      invariant 0 <= i <= |parts|
      invariant forall k :: 0 <= k < i && parts[k].Data? ==> !Contains(parts[k].value, b)
    {
      if parts[i].Data? {
        var value := parts[i].value;
        if FirstFrom(value, b, 0).Some? {
          return true;
        }
        assert !Contains(value, b);
        EncodingKeepsBoundaryOut(value, mode, b);
        var encoded := Encode(value, mode);
        var found := ScanFor(encoded, b);
        if found {
          return true;
        }
      }
      i := i + 1;
    }
    return false;
  }

  /** The first of three draws that no original payload holds. */
  ghost function Chosen(draws: seq<Option<seq<u8>>>, parts: seq<Part>, i: nat): (r: Result<string>)
    requires |draws| == 3 && i <= 3
    decreases 3 - i
  {
    if i == 3 then Err("prompt boundary collided with data")
    else if draws[i].None? then Err("prompt boundary entropy unavailable")
    else if !Collision(parts, HexText(draws[i].value)) then Ok(HexText(draws[i].value))
    else Chosen(draws, parts, i + 1)
  }

  /** The first `i` draws came and collided. */
  ghost predicate Discarded(draws: seq<Option<seq<u8>>>, parts: seq<Part>, i: int)
    requires |draws| == 3
  {
    0 <= i <= 3 && forall j :: 0 <= j < i ==> draws[j].Some? && Collision(parts, HexText(draws[j].value))
  }

  /** What was chosen is the first draw that is free, unless entropy fails before it or none is. */
  lemma ChosenIsFirst(draws: seq<Option<seq<u8>>>, parts: seq<Part>)
    requires |draws| == 3
    ensures exists i :: Discarded(draws, parts, i)
              && (i < 3 && draws[i].Some? ==> !Collision(parts, HexText(draws[i].value)))
              && Chosen(draws, parts, 0) ==
                 if i == 3 then Err("prompt boundary collided with data")
                 else if draws[i].None? then Err("prompt boundary entropy unavailable")
                 else Ok(HexText(draws[i].value))
  {
    hide HexText, Collision;
    var i := 0;
    while i < 3 && draws[i].Some? && Collision(parts, HexText(draws[i].value))
      invariant Discarded(draws, parts, i) && Chosen(draws, parts, 0) == Chosen(draws, parts, i)
    {
      i := i + 1;
    }
    assert Discarded(draws, parts, i);
  }

  method SelectBoundary(draws: seq<Option<seq<u8>>>, parts: seq<Part>, mode: DataMode) returns (r: Result<string>)
    requires |draws| == 3 && forall d :: d in draws && d.Some? ==> |d.value| == 16
    ensures r == Chosen(draws, parts, 0)
    ensures r.Ok? ==> IsBoundary(r.value) && !Collision(parts, r.value)
  {
    hide HexText;
    var i := 0;
    while i < 3
      invariant 0 <= i <= 3
      invariant Chosen(draws, parts, 0) == Chosen(draws, parts, i)
    {
      if draws[i].None? {
        return Err("prompt boundary entropy unavailable");
      }
      assert draws[i] in draws;
      var candidate := HexText(draws[i].value);
      var hit := Collides(parts, candidate, mode);
      if !hit {
        return Ok(candidate);
      }
      i := i + 1;
    }
    return Err("prompt boundary collided with data");
  }

  /** Selecting and rendering: the result decodes to exactly the payloads under the chosen boundary. */
  method Render(preamble: string, parts: seq<Part>, mode: DataMode, draws: seq<Option<seq<u8>>>)
    returns (r: Result<string>)
    requires |draws| == 3 && forall d :: d in draws && d.Some? ==> |d.value| == 16
    ensures r.Ok? <==> Chosen(draws, parts, 0).Ok?
    ensures r.Ok? ==>
              var recipe := RecipeOf(preamble, parts);
              Decomposition(r.value, recipe.spans, recipe.suffix, Chosen(draws, parts, 0).value, mode)
              == Some(Values(parts))
    ensures r.Ok? ==> forall k :: 0 <= k < |parts| ==>
              PartReads(r.value, preamble, parts, Chosen(draws, parts, 0).value, mode, k)
  {
    hide Decomposition, Chosen, PartReads, Contains, Encoding;
    var b := SelectBoundary(draws, parts, mode);
    if b.Err? {
      return Err(b.error);
    }
    ValuesAreFree(parts, b.value);
    CompositionRoundTrip(preamble, parts, b.value, mode);
    var out := Finish(preamble, parts, b.value, mode);
    forall k | 0 <= k < |parts| ensures PartReads(out, preamble, parts, b.value, mode, k) {
      if parts[k].Data? {
        EncodingKeepsBoundaryOut(parts[k].value, mode, b.value);
      }
      PartIsRead(preamble, parts, b.value, mode, k);
    }
    return Ok(out);
  }

  lemma {:induction false} ValuesAreFree(parts: seq<Part>, b: string)
    requires !Collision(parts, b)
    ensures forall v :: v in Values(parts) ==> !Contains(v, b)
  {
    if parts != [] {
      assert forall k :: 0 <= k < |parts[1..]| ==> parts[1..][k] == parts[k + 1];
      ValuesAreFree(parts[1..], b);
      assert parts[0].Data? ==> !Contains(parts[0].value, b);
    }
  }
}
