/**
 Token usage of a provider response: the largest count under every nested `usage`
 object. The reference walks an explicit stack, the broker recurses; both compute
 the same maxima, and so does any order of visiting the tree.
 */
module BrokerUsage {
  import opened Decimal
  import opened Json
  import opened TextLines
  import opened Wrappers

  const U64_MAX := 0xFFFF_FFFF_FFFF_FFFF

  datatype Maxima = Maxima(input: nat, output: nat, total: nat)

  const ZERO := Maxima(0, 0, 0)

  function Max(a: nat, b: nat): (m: nat)
  {
    if a < b then b else a
  }

  function Join(a: Maxima, b: Maxima): (m: Maxima)
  {
    Maxima(Max(a.input, b.input), Max(a.output, b.output), Max(a.total, b.total))
  }

  /** A number token that is an unsigned 64-bit integer. */
  function AsU64(v: Option<Value>): (n: Option<nat>)
    ensures n.Some? ==> n.value <= U64_MAX
  {
    if v.Some? && v.value.Num? && v.value.token != "" && AllDigits(v.value.token)
       && DecValue(v.value.token) <= U64_MAX
    then Some(DecValue(v.value.token))
    else None
  }

  function Count(usage: seq<Field>, key: string): (n: nat)
    ensures n <= U64_MAX
  {
    var found := AsU64(Lookup(usage, key));
    if found.Some? then found.value else 0
  }

  /** The three counts a `usage` entry contributes; nothing unless it is an object. */
  function Usage(f: Field): (m: Maxima)
  {
    if f.key == "usage" && f.value.Obj? then
      Maxima(Count(f.value.fields, "input_tokens"), Count(f.value.fields, "output_tokens"),
             Count(f.value.fields, "total_tokens"))
    else ZERO
  }

  /** The maxima over every nested `usage` object. */
  function Peak(v: Value): (m: Maxima)
    decreases v, 1
  {
    match v
    case Arr(items) => PeakItems(items)
    case Obj(fields) => PeakFields(fields)
    case _ => ZERO
  }

  function PeakItems(items: seq<Value>): (m: Maxima)
    decreases items, 0
  {
    if items == [] then ZERO else Join(Peak(items[0]), PeakItems(items[1..]))
  }

  function PeakFields(fields: seq<Field>): (m: Maxima)
    decreases fields, 0
  {
    if fields == [] then ZERO
    else Join(Join(Usage(fields[0]), Peak(fields[0].value)), PeakFields(fields[1..]))
  }

  function Size(v: Value): (n: nat)
    ensures n >= 1
    decreases v, 1
  {
    match v
    case Arr(items) => 1 + SizeItems(items)
    case Obj(fields) => 1 + SizeFields(fields)
    case _ => 1
  }

  function SizeItems(items: seq<Value>): (n: nat)
    decreases items, 0
  {
    if items == [] then 0 else Size(items[0]) + SizeItems(items[1..])
  }

  function SizeFields(fields: seq<Field>): (n: nat)
    decreases fields, 0
  {
    if fields == [] then 0 else Size(fields[0].value) + SizeFields(fields[1..])
  }

  // ---------- The stack walk ----------

  lemma {:induction false} ItemsConcat(a: seq<Value>, b: seq<Value>)
    ensures PeakItems(a + b) == Join(PeakItems(a), PeakItems(b))
    ensures SizeItems(a + b) == SizeItems(a) + SizeItems(b)
  {
    if a == [] {
      assert a + b == b;
    } else {
      ItemsConcat(a[1..], b);
      assert (a + b)[1..] == a[1..] + b;
    }
  }

  lemma OneItem(v: Value)
    ensures PeakItems([v]) == Peak(v) && SizeItems([v]) == Size(v)
  {
    assert [v][1..] == [];
  }

  lemma FieldsStep(fields: seq<Field>, i: nat)
    requires i < |fields|
    ensures PeakFields(fields[i..]) == Join(Join(Usage(fields[i]), Peak(fields[i].value)), PeakFields(fields[i + 1..]))
    ensures SizeFields(fields[i..]) == Size(fields[i].value) + SizeFields(fields[i + 1..])
  {
    assert fields[i..][1..] == fields[i + 1..];
  }

  ghost function Held(maxima: seq<nat>): (m: Maxima)
    requires |maxima| == 3
  {
    Maxima(maxima[0], maxima[1], maxima[2])
  }

  lemma FrontAndTop(pending: seq<Value>)
    requires pending != []
    ensures var front, top := pending[..|pending| - 1], pending[|pending| - 1];
            && PeakItems(pending) == Join(PeakItems(front), Peak(top))
            && SizeItems(pending) == SizeItems(front) + Size(top)
  {
    var front, top := pending[..|pending| - 1], pending[|pending| - 1];
    assert pending == front + [top];
    ItemsConcat(front, [top]);
    OneItem(top);
  }

  /** Pops the last pending value and pushes its children until nothing is pending. */
  method Observe(root: Value, maxima: array<nat>)
    requires maxima.Length == 3
    modifies maxima
    ensures Held(maxima[..]) == Join(old(Held(maxima[..])), Peak(root))
  {
    hide PeakItems, SizeItems, PeakFields, SizeFields;
    var pending := [root];
    OneItem(root);
    ghost var goal := Join(Held(maxima[..]), Peak(root));
    while pending != []
      invariant Join(Held(maxima[..]), PeakItems(pending)) == goal
      decreases SizeItems(pending)
    {
      FrontAndTop(pending);
      var value := pending[|pending| - 1];
      pending := pending[..|pending| - 1];
      match value {
        case Arr(items) =>
          ItemsConcat(pending, items);
          pending := pending + items;
        case Obj(fields) =>
          pending := ObserveFields(fields, pending, maxima);
        case _ =>
      }
    }
    NothingPending();
  }

  lemma FieldsEnd(fields: seq<Field>, i: nat)
    requires i == |fields|
    ensures PeakFields(fields[i..]) == ZERO && SizeFields(fields[i..]) == 0
  {
    assert fields[i..] == [];
  }

  lemma NothingPending()
    ensures PeakItems([]) == ZERO && SizeItems([]) == 0 && PeakFields([]) == ZERO && SizeFields([]) == 0
  {
  }

  lemma JoinZero(a: Maxima)
    ensures Join(a, ZERO) == a
  {
  }

  lemma Regroup(held: Maxima, items: Maxima, usage: Maxima, child: Maxima, rest: Maxima)
    ensures Join(Join(held, items), Join(Join(usage, child), rest))
            == Join(Join(Join(held, usage), Join(items, child)), rest)
  {
  }

  /** Raises the three maxima to what one entry reports. */
  method Raise(f: Field, maxima: array<nat>)
    requires maxima.Length == 3
    modifies maxima
    ensures Held(maxima[..]) == Join(old(Held(maxima[..])), Usage(f))
  {
    hide Count;
    if f.key == "usage" && f.value.Obj? {
      maxima[0] := Max(maxima[0], Count(f.value.fields, "input_tokens"));
      maxima[1] := Max(maxima[1], Count(f.value.fields, "output_tokens"));
      maxima[2] := Max(maxima[2], Count(f.value.fields, "total_tokens"));
    }
  }

  method ObserveFields(fields: seq<Field>, stack: seq<Value>, maxima: array<nat>) returns (pending: seq<Value>)
    requires maxima.Length == 3
    modifies maxima
    ensures Join(Held(maxima[..]), PeakItems(pending))
            == Join(Join(old(Held(maxima[..])), PeakItems(stack)), PeakFields(fields))
    ensures SizeItems(pending) == SizeItems(stack) + SizeFields(fields)
  {
    hide PeakItems, SizeItems, PeakFields, SizeFields, Peak, Size, Usage, Held, Join;
    pending := stack;
    var i := 0;
    ghost var goal := Join(Join(Held(maxima[..]), PeakItems(stack)), PeakFields(fields));
    assert fields[0..] == fields;
    while i < |fields|
      invariant 0 <= i <= |fields|
      invariant Join(Join(Held(maxima[..]), PeakItems(pending)), PeakFields(fields[i..])) == goal
      invariant SizeItems(pending) + SizeFields(fields[i..]) == SizeItems(stack) + SizeFields(fields)
    {
      FieldsStep(fields, i);
      var child := fields[i].value;
      Regroup(Held(maxima[..]), PeakItems(pending), Usage(fields[i]), Peak(child), PeakFields(fields[i + 1..]));
      Raise(fields[i], maxima);
      ItemsConcat(pending, [child]);
      OneItem(child);
      pending := pending + [child];
      i := i + 1;
    }
    FieldsEnd(fields, i);
    JoinZero(Join(Held(maxima[..]), PeakItems(pending)));
  }

  // ---------- Any order of visiting ----------

  /** Values still to visit, and the maxima so far. */
  datatype Work = Work(pending: seq<Value>, maxima: Maxima)

  function Children(v: Value): (cs: seq<Value>)
  {
    match v
    case Arr(items) => items
    case Obj(fields) => ChildValues(fields)
    case _ => []
  }

  function ChildValues(fields: seq<Field>): (cs: seq<Value>)
  {
    if fields == [] then [] else [fields[0].value] + ChildValues(fields[1..])
  }

  function OwnUsage(v: Value): (m: Maxima)
  {
    if v.Obj? then FieldUsage(v.fields) else ZERO
  }

  function FieldUsage(fields: seq<Field>): (m: Maxima)
  {
    if fields == [] then ZERO else Join(Usage(fields[0]), FieldUsage(fields[1..]))
  }

  /** Visit any pending value: take it out, put its children in anywhere. */
  ghost predicate Visit(s: Work, t: Work)
  {
    exists k :: 0 <= k < |s.pending|
      && multiset(t.pending) == multiset(s.pending[..k] + s.pending[k + 1..] + Children(s.pending[k]))
      && t.maxima == Join(s.maxima, OwnUsage(s.pending[k]))
  }

  ghost predicate Traversal(run: seq<Work>, root: Value)
  {
    && run != [] && run[0] == Work([root], ZERO) && run[|run| - 1].pending == []
    && forall i :: 0 <= i < |run| - 1 ==> Visit(run[i], run[i + 1])
  }

  lemma {:induction false} PeakSplits(v: Value)
    ensures Peak(v) == Join(OwnUsage(v), PeakItems(Children(v)))
  {
    if v.Obj? {
      FieldsSplit(v.fields);
    }
  }

  lemma {:induction false} FieldsSplit(fields: seq<Field>)
    ensures PeakFields(fields) == Join(FieldUsage(fields), PeakItems(ChildValues(fields)))
  {
    if fields != [] {
      FieldsSplit(fields[1..]);
      assert ChildValues(fields)[1..] == ChildValues(fields[1..]);
    }
  }

  lemma {:induction false} PeakOfPermutation(a: seq<Value>, b: seq<Value>)
    requires multiset(a) == multiset(b)
    ensures PeakItems(a) == PeakItems(b)
    decreases |a|
  {
    hide Peak;
    assert |multiset(a)| == |a| && |multiset(b)| == |b|;
    if a != [] {
      assert a[0] in multiset(a);
      assert a[0] in b;
      var k :| 0 <= k < |b| && b[k] == a[0];
      assert a == [a[0]] + a[1..];
      assert b == b[..k] + [b[k]] + b[k + 1..];
      assert multiset(a[1..]) == multiset(a) - multiset{a[0]};
      assert multiset(b[..k] + b[k + 1..]) == multiset(b) - multiset{b[k]};
      PeakOfPermutation(a[1..], b[..k] + b[k + 1..]);
      PeakWithout(b, k);
    }
  }

  lemma PeakWithout(b: seq<Value>, k: nat)
    requires k < |b|
    ensures PeakItems(b) == Join(Peak(b[k]), PeakItems(b[..k] + b[k + 1..]))
  {
    hide PeakItems, Peak;
    assert b == b[..k] + ([b[k]] + b[k + 1..]);
    ItemsConcat(b[..k], [b[k]] + b[k + 1..]);
    ItemsConcat([b[k]], b[k + 1..]);
    OneItem(b[k]);
    ItemsConcat(b[..k], b[k + 1..]);
  }

  lemma VisitKeeps(s: Work, t: Work)
    requires Visit(s, t)
    ensures Join(t.maxima, PeakItems(t.pending)) == Join(s.maxima, PeakItems(s.pending))
  {
    hide PeakItems, Peak, OwnUsage, Children;
    var k :| 0 <= k < |s.pending|
      && multiset(t.pending) == multiset(s.pending[..k] + s.pending[k + 1..] + Children(s.pending[k]))
      && t.maxima == Join(s.maxima, OwnUsage(s.pending[k]));
    var v := s.pending[k];
    var others := s.pending[..k] + s.pending[k + 1..];
    PeakOfPermutation(t.pending, others + Children(v));
    ItemsConcat(others, Children(v));
    PeakWithout(s.pending, k);
    PeakSplits(v);
  }

  lemma {:induction false} VisitsKeep(run: seq<Work>)
    requires run != [] && forall i :: 0 <= i < |run| - 1 ==> Visit(run[i], run[i + 1])
    ensures var s, t := run[0], run[|run| - 1];
            Join(t.maxima, PeakItems(t.pending)) == Join(s.maxima, PeakItems(s.pending))
    decreases |run|
  {
    hide Visit, PeakItems;
    if |run| > 1 {
      VisitKeeps(run[0], run[1]);
      assert run[1..][|run| - 2] == run[|run| - 1];
      VisitsKeep(run[1..]);
    }
  }

  /** Every traversal of a tree, whatever its order, ends with the recursive maxima. */
  lemma AnyOrderFindsPeak(run: seq<Work>, root: Value)
    requires Traversal(run, root)
    ensures run[|run| - 1].maxima == Peak(root)
  {
    VisitsKeep(run);
    OneItem(root);
    NothingPending();
  }

  // ---------- The broker's recursion ----------

  /** Looking `usage` up once is the same as scanning every field, when no key repeats. */
  lemma {:induction false} UsageByLookup(fields: seq<Field>)
    requires DistinctKeys(fields)
    ensures var found := Lookup(fields, "usage");
            FieldUsage(fields) == if found.Some? then Usage(Field("usage", found.value)) else ZERO
  {
    hide Count;
    if fields != [] {
      if fields[0].key == "usage" {
        NoUsage(fields[1..]);
      } else {
        UsageByLookup(fields[1..]);
      }
    }
  }

  lemma {:induction false} NoUsage(fields: seq<Field>)
    requires forall i :: 0 <= i < |fields| ==> fields[i].key != "usage"
    ensures FieldUsage(fields) == ZERO
  {
    if fields != [] {
      NoUsage(fields[1..]);
    }
  }

  class ParsedTokenUsage {
    var input: nat
    var output: nat
    var total: nat

    constructor ()
      ensures View() == ZERO
    {
      input, output, total := 0, 0, 0;
    }

    ghost function View(): (m: Maxima)
      reads this
    {
      Maxima(input, output, total)
    }

    method Observe(value: Value)
      requires Distinct(value)
      modifies this
      ensures View() == Join(old(View()), Peak(value))
      decreases value, 1
    {
      hide Peak, PeakItems, Count, ChildValues, FieldUsage, Lookup;
      PeakSplits(value);
      match value {
        case Obj(fields) =>
          UsageByLookup(fields);
          var usage := Lookup(fields, "usage");
          if usage.Some? && usage.value.Obj? {
            input := Max(input, Count(usage.value.fields, "input_tokens"));
            output := Max(output, Count(usage.value.fields, "output_tokens"));
            total := Max(total, Count(usage.value.fields, "total_tokens"));
          }
          ObserveValues(fields);
        case Arr(items) =>
          ObserveItems(items);
        case _ =>
          NothingPending();
      }
    }

    method ObserveValues(fields: seq<Field>)
      requires forall i :: 0 <= i < |fields| ==> Distinct(fields[i].value)
      modifies this
      ensures View() == Join(old(View()), PeakItems(ChildValues(fields)))
      decreases fields, 0
    {
      hide Peak, Distinct;
      var i := 0;
      ghost var goal := Join(View(), PeakItems(ChildValues(fields)));
      assert fields[0..] == fields;
      while i < |fields|
        invariant 0 <= i <= |fields|
        invariant Join(View(), PeakItems(ChildValues(fields[i..]))) == goal
      {
        assert fields[i..][1..] == fields[i + 1..];
        assert ChildValues(fields[i..])[1..] == ChildValues(fields[i + 1..]);
        Observe(fields[i].value);
        i := i + 1;
      }
      assert fields[i..] == [];
    }

    method ObserveItems(items: seq<Value>)
      requires forall i :: 0 <= i < |items| ==> Distinct(items[i])
      modifies this
      ensures View() == Join(old(View()), PeakItems(items))
      decreases items, 0
    {
      hide Peak, Distinct;
      var i := 0;
      ghost var goal := Join(View(), PeakItems(items));
      assert items[0..] == items;
      while i < |items|
        invariant 0 <= i <= |items|
        invariant Join(View(), PeakItems(items[i..])) == goal
      {
        assert items[i..][1..] == items[i + 1..];
        Observe(items[i]);
        i := i + 1;
      }
      assert items[i..] == [];
    }
  }

  // ---------- Whole responses ----------

  /** The larger of the total and input plus output, saturated at 64 bits. */
  function Saturated(m: Maxima): (n: nat)
  {
    var n := Max(m.input + m.output, m.total);
    if n > U64_MAX then U64_MAX else n
  }

  /** The events of a stream: `data:` lines whose trimmed payload parses. */
  function Events(lines: seq<string>, parse: string -> Option<Value>): (vs: seq<Value>)
  {
    if lines == [] then []
    else
      var front, line := Events(lines[..|lines| - 1], parse), lines[|lines| - 1];
      if "data:" <= line && parse(Trim(line[5..])).Some? then front + [parse(Trim(line[5..])).value] else front
  }

  function Documents(text: string, parse: string -> Option<Value>): (vs: seq<Value>)
  {
    if parse(text).Some? then [parse(text).value] else Events(Lines(text), parse)
  }

  function Tokens(text: string, parse: string -> Option<Value>): (n: nat)
  {
    Saturated(PeakItems(Documents(text, parse)))
  }

  method ReferenceTokens(text: string, parse: string -> Option<Value>) returns (n: nat)
    ensures n == Tokens(text, parse)
  {
    hide Trim, Lines, Peak, PeakItems;
    var maxima := new nat[3](_ => 0);
    assert Held(maxima[..]) == ZERO;
    NothingPending();
    if parse(text).Some? {
      OneItem(parse(text).value);
      Observe(parse(text).value, maxima);
    } else {
      var lines, i := Lines(text), 0;
      while i < |lines|
        invariant 0 <= i <= |lines|
        invariant Held(maxima[..]) == PeakItems(Events(lines[..i], parse))
      {
        assert lines[..i + 1][..i] == lines[..i];
        if "data:" <= lines[i] {
          var value := parse(Trim(lines[i][5..]));
          if value.Some? {
            ItemsConcat(Events(lines[..i], parse), [value.value]);
            OneItem(value.value);
            Observe(value.value, maxima);
          }
        }
        i := i + 1;
      }
      assert lines[..i] == lines;
    }
    n := Saturated(Maxima(maxima[0], maxima[1], maxima[2]));
  }

  /** The broker skips the end marker and saturates the sum first; the count is the same. */
  method BrokerTokens(text: string, parse: string -> Option<Value>) returns (n: nat)
    requires parse("[DONE]").None?
    requires forall t :: parse(t).Some? ==> Distinct(parse(t).value)
    ensures n == Tokens(text, parse)
  {
    hide Trim, Lines, Peak, PeakItems, Distinct;
    var usage := new ParsedTokenUsage();
    NothingPending();
    if parse(text).Some? {
      OneItem(parse(text).value);
      usage.Observe(parse(text).value);
    } else {
      var lines, i := Lines(text), 0;
      while i < |lines|
        invariant 0 <= i <= |lines|
        invariant usage.View() == PeakItems(Events(lines[..i], parse))
      {
        assert lines[..i + 1][..i] == lines[..i];
        if "data:" <= lines[i] {
          var payload := Trim(lines[i][5..]);
          if payload != "[DONE]" && parse(payload).Some? {
            ItemsConcat(Events(lines[..i], parse), [parse(payload).value]);
            OneItem(parse(payload).value);
            usage.Observe(parse(payload).value);
          }
        }
        i := i + 1;
      }
      assert lines[..i] == lines;
    }
    var sum := if usage.input + usage.output > U64_MAX then U64_MAX else usage.input + usage.output;
    PeakFits(Documents(text, parse));
    n := Max(usage.total, sum);
  }

  lemma {:induction false} PeakFits(vs: seq<Value>)
    ensures PeakItems(vs).total <= U64_MAX
    decreases vs, 0
  {
    if vs != [] {
      PeakOneFits(vs[0]);
      PeakFits(vs[1..]);
    }
  }

  lemma {:induction false} PeakOneFits(v: Value)
    ensures Peak(v).total <= U64_MAX
    decreases v, 1
  {
    match v {
      case Arr(items) => PeakFits(items);
      case Obj(fields) => PeakFieldsFit(fields);
      case _ =>
    }
  }

  lemma {:induction false} PeakFieldsFit(fields: seq<Field>)
    ensures PeakFields(fields).total <= U64_MAX
    decreases fields, 0
  {
    if fields != [] {
      PeakOneFits(fields[0].value);
      PeakFieldsFit(fields[1..]);
    }
  }

  // ---------- What the count means ----------

  datatype Part = Input | Output | Whole

  function Get(m: Maxima, c: Part): (n: nat)
  {
    match c
    case Input => m.input
    case Output => m.output
    case Whole => m.total
  }

  function Counts(u: seq<Field>): (m: Maxima)
  {
    Maxima(Count(u, "input_tokens"), Count(u, "output_tokens"), Count(u, "total_tokens"))
  }

  /** The object a path leads to has the `usage` object `u` as its field `k`. */
  ghost predicate ReportsAt(v: Value, path: seq<nat>, k: int, u: seq<Field>)
  {
    var w := Sub(v, path);
    w.Some? && w.value.Obj? && 0 <= k < |w.value.fields| && w.value.fields[k] == Field("usage", Obj(u))
  }

  ghost predicate Reports(v: Value, u: seq<Field>)
  {
    exists path, k :: ReportsAt(v, path, k, u)
  }

  lemma {:induction false} FieldBound(fields: seq<Field>, k: nat, c: Part)
    requires k < |fields|
    ensures Get(Usage(fields[k]), c) <= Get(PeakFields(fields), c)
    ensures Get(Peak(fields[k].value), c) <= Get(PeakFields(fields), c)
  {
    hide Usage, Peak;
    if k > 0 {
      FieldBound(fields[1..], k - 1, c);
    }
  }

  lemma {:induction false} ItemBound(items: seq<Value>, k: nat, c: Part)
    requires k < |items|
    ensures Get(Peak(items[k]), c) <= Get(PeakItems(items), c)
  {
    hide Peak;
    if k > 0 {
      ItemBound(items[1..], k - 1, c);
    }
  }

  lemma {:induction false} PeakBounds(v: Value, path: seq<nat>, k: nat, u: seq<Field>, c: Part)
    requires ReportsAt(v, path, k, u)
    ensures Get(Counts(u), c) <= Get(Peak(v), c)
    decreases |path|
  {
    hide PeakFields, PeakItems, Count, Get;
    if path == [] {
      FieldBound(v.fields, k, c);
    } else {
      PeakBounds(Child(v, path[0]).value, path[1..], k, u, c);
      match v {
        case Arr(items) => ItemBound(items, path[0], c);
        case Obj(fields) => FieldBound(fields, path[0], c);
      }
    }
  }

  lemma {:induction false} ItemsAttain(items: seq<Value>, c: Part)
    ensures Get(PeakItems(items), c) == 0
            || exists i :: 0 <= i < |items| && Get(Peak(items[i]), c) == Get(PeakItems(items), c)
  {
    hide Peak;
    if items != [] {
      ItemsAttain(items[1..], c);
      if i :| 0 <= i < |items[1..]| && Get(Peak(items[1..][i]), c) == Get(PeakItems(items[1..]), c) {
        assert items[i + 1] == items[1..][i];
      }
      assert items[0] == items[0];
    }
  }

  lemma {:induction false} FieldsAttain(fields: seq<Field>, c: Part)
    ensures Get(PeakFields(fields), c) == 0
            || exists i :: 0 <= i < |fields| && (Get(Usage(fields[i]), c) == Get(PeakFields(fields), c)
                                                 || Get(Peak(fields[i].value), c) == Get(PeakFields(fields), c))
  {
    hide Peak, Usage;
    if fields != [] {
      FieldsAttain(fields[1..], c);
      var rest := fields[1..];
      if i :| 0 <= i < |rest| && (Get(Usage(rest[i]), c) == Get(PeakFields(rest), c)
                                  || Get(Peak(rest[i].value), c) == Get(PeakFields(rest), c)) {
        assert fields[i + 1] == rest[i];
      }
      assert fields[0] == fields[0];
    }
  }

  lemma ChildReports(v: Value, i: nat, u: seq<Field>)
    requires Child(v, i).Some? && Reports(Child(v, i).value, u)
    ensures Reports(v, u)
  {
    var path, k :| ReportsAt(Child(v, i).value, path, k, u);
    SubStep(v, i, path);
    assert ReportsAt(v, [i] + path, k, u);
  }

  lemma {:induction false} PeakAttained(v: Value, c: Part)
    ensures Get(Peak(v), c) == 0 || exists u :: Reports(v, u) && Get(Counts(u), c) == Get(Peak(v), c)
    decreases v
  {
    hide PeakFields, PeakItems, Count, Reports, Get;
    if Get(Peak(v), c) != 0 {
      match v {
        case Arr(items) =>
          ItemsAttain(items, c);
          var i :| 0 <= i < |items| && Get(Peak(items[i]), c) == Get(PeakItems(items), c);
          PeakAttained(items[i], c);
          var u :| Reports(items[i], u) && Get(Counts(u), c) == Get(Peak(items[i]), c);
          ChildReports(v, i, u);
        case Obj(fields) =>
          FieldsAttain(fields, c);
          var i :| 0 <= i < |fields| && (Get(Usage(fields[i]), c) == Get(PeakFields(fields), c)
                                         || Get(Peak(fields[i].value), c) == Get(PeakFields(fields), c));
          if Get(Usage(fields[i]), c) == Get(PeakFields(fields), c) {
            OwnReport(fields, i, c);
          } else {
            PeakAttained(fields[i].value, c);
            var u :| Reports(fields[i].value, u) && Get(Counts(u), c) == Get(Peak(fields[i].value), c);
            ChildReports(v, i, u);
          }
        case _ => NoPeak(v, c);
      }
    }
  }

  lemma NoPeak(v: Value, c: Part)
    requires !v.Arr? && !v.Obj?
    ensures Get(Peak(v), c) == 0
  {
  }

  lemma OwnReport(fields: seq<Field>, i: nat, c: Part)
    requires i < |fields| && Get(Usage(fields[i]), c) != 0
    ensures exists u :: Reports(Obj(fields), u) && Get(Counts(u), c) == Get(Usage(fields[i]), c)
  {
    hide Count;
    var u := fields[i].value.fields;
    assert ReportsAt(Obj(fields), [], i, u);
    assert Reports(Obj(fields), u) && Counts(u) == Usage(fields[i]);
  }

  ghost predicate Reported(vs: seq<Value>, u: seq<Field>)
  {
    exists i :: 0 <= i < |vs| && Reports(vs[i], u)
  }

  /** `m` is the greatest such count of any `usage` object anywhere in the documents, or 0. */
  ghost predicate IsPeak(vs: seq<Value>, c: Part, m: nat)
  {
    && (forall u :: Reported(vs, u) ==> Get(Counts(u), c) <= m)
    && (m == 0 || exists u :: Reported(vs, u) && Get(Counts(u), c) == m)
  }

  lemma PeaksAre(vs: seq<Value>, c: Part)
    ensures IsPeak(vs, c, Get(PeakItems(vs), c))
  {
    hide PeakItems, Peak, Counts, Get, Reports;
    forall u | Reported(vs, u) ensures Get(Counts(u), c) <= Get(PeakItems(vs), c) {
      var i :| 0 <= i < |vs| && Reports(vs[i], u);
      ItemBound(vs, i, c);
      ReportBounded(vs[i], u, c);
    }
    ItemsAttain(vs, c);
    if i :| 0 <= i < |vs| && Get(Peak(vs[i]), c) == Get(PeakItems(vs), c) {
      PeakAttained(vs[i], c);
      if u :| Reports(vs[i], u) && Get(Counts(u), c) == Get(Peak(vs[i]), c) {
        assert Reported(vs, u);
      }
    }
  }

  lemma ReportBounded(v: Value, u: seq<Field>, c: Part)
    requires Reports(v, u)
    ensures Get(Counts(u), c) <= Get(Peak(v), c)
  {
    hide Peak, Counts;
    var path, k :| ReportsAt(v, path, k, u);
    PeakBounds(v, path, k, u, c);
  }

  /** Line `i` is a `data:` line whose trimmed payload parses to `v`. */
  ghost predicate EventAt(lines: seq<string>, i: int, parse: string -> Option<Value>, v: Value)
  {
    0 <= i < |lines| && "data:" <= lines[i] && parse(Trim(lines[i][5..])) == Some(v)
  }

  lemma {:induction false} EventsAre(lines: seq<string>, parse: string -> Option<Value>, v: Value)
    ensures v in Events(lines, parse) <==> exists i :: EventAt(lines, i, parse, v)
    decreases |lines|
  {
    hide Trim;
    if lines != [] {
      var n := |lines| - 1;
      EventsAre(lines[..n], parse, v);
      if i :| EventAt(lines, i, parse, v) && i < n {
        assert EventAt(lines[..n], i, parse, v);
      }
      if i :| EventAt(lines[..n], i, parse, v) {
        assert EventAt(lines, i, parse, v);
      }
      assert "data:" <= lines[n] && parse(Trim(lines[n][5..])) == Some(v) ==> EventAt(lines, n, parse, v);
    }
  }

  /** The least 64-bit number at least the total and at least input plus output; the largest one if none is. */
  ghost predicate IsCount(n: nat, input: nat, output: nat, total: nat)
  {
    if total <= U64_MAX && input + output <= U64_MAX then
      total <= n && input + output <= n && (n == total || n == input + output)
    else n == U64_MAX
  }

  /** The count of a response, in terms of the `usage` objects its documents hold at any depth. */
  lemma TokensMean(text: string, parse: string -> Option<Value>)
    ensures forall v :: v in Documents(text, parse)
              <==> if parse(text).Some? then parse(text) == Some(v)
                   else exists i :: EventAt(Lines(text), i, parse, v)
    ensures exists input, output, total ::
              && IsPeak(Documents(text, parse), Input, input) && IsPeak(Documents(text, parse), Output, output)
              && IsPeak(Documents(text, parse), Whole, total) && IsCount(Tokens(text, parse), input, output, total)
  {
    hide IsPeak, PeakItems, Events, Lines;
    forall v ensures v in Events(Lines(text), parse) <==> exists i :: EventAt(Lines(text), i, parse, v) {
      EventsAre(Lines(text), parse, v);
    }
    var vs := Documents(text, parse);
    PeaksAre(vs, Input);
    PeaksAre(vs, Output);
    PeaksAre(vs, Whole);
    var m := PeakItems(vs);
    assert IsPeak(vs, Input, m.input) && IsPeak(vs, Output, m.output) && IsPeak(vs, Whole, m.total);
    assert IsCount(Tokens(text, parse), m.input, m.output, m.total);
  }
}
