/**
 Bounded JSON admission: depth, node and byte budgets threaded through a tree
 walk, leaf and key policies, no repeated key. Two walks are modelled, the
 independent reference walk and the streaming visitor; both are shown to accept
 exactly the trees whose whole-tree totals fit, and to yield the same text.
 */
module BoundedJson {
  import opened Bytes
  import opened CanonicalJson
  import opened Json
  import opened Wrappers

  const MAX_BYTES := 64 * 1024
  const MAX_DEPTH := 16
  const MAX_NODES := 4096

  /** The text policies: `leaf` normalizes or refuses a string, `key` admits an object key. */
  datatype Policy = Policy(leaf: string -> Option<string>, key: string -> bool)

  // ---------- Whole-tree totals ----------

  datatype Measure = Measure(nodes: nat, text: nat, height: nat, admissible: bool)

  const ZERO := Measure(0, 0, 0, true)

  function Max(a: nat, b: nat): (m: nat)
  {
    if a < b then b else a
  }

  function Plus(a: Measure, b: Measure): (m: Measure)
  {
    Measure(a.nodes + b.nodes, a.text + b.text, Max(a.height, b.height), a.admissible && b.admissible)
  }

  function Node(m: Measure, admissible: bool): (r: Measure)
  {
    Measure(m.nodes + 1, m.text, m.height + 1, m.admissible && admissible)
  }

  function Total(p: Policy, v: Value): (m: Measure)
    ensures m.nodes >= 1 && m.height >= 1
    decreases v, 1
  {
    match v
    case Str(s) => Measure(1, |Utf8(s)|, 1, p.leaf(s).Some?)
    case Arr(items) => Node(ItemTotal(p, items), true)
    case Obj(fields) => Node(EntryTotal(p, fields), DistinctKeys(fields))
    case _ => Measure(1, 0, 1, true)
  }

  function ItemTotal(p: Policy, items: seq<Value>): (m: Measure)
    decreases items, 0
  {
    if items == [] then ZERO else Plus(Total(p, items[0]), ItemTotal(p, items[1..]))
  }

  function KeyTotal(p: Policy, fields: seq<Field>): (m: Measure)
    ensures m.nodes == 0 && m.height == 0
  {
    if fields == [] then ZERO
    else Plus(Measure(0, |Utf8(fields[0].key)|, 0, p.key(fields[0].key)), KeyTotal(p, fields[1..]))
  }

  function ValueTotal(p: Policy, fields: seq<Field>): (m: Measure)
    decreases fields, 0
  {
    if fields == [] then ZERO else Plus(Total(p, fields[0].value), ValueTotal(p, fields[1..]))
  }

  /** Keys and values of the remaining entries together. */
  function EntryTotal(p: Policy, fields: seq<Field>): (m: Measure)
    decreases fields, 1
  {
    Plus(KeyTotal(p, fields), ValueTotal(p, fields))
  }

  /** A forest of total `m` below `depth` fits what is left after `nodes` and `text`. */
  predicate Fits(m: Measure, depth: nat, nodes: nat, text: nat)
  {
    && m.admissible
    && (m.height == 0 || depth + m.height - 1 <= MAX_DEPTH)
    && nodes + m.nodes <= MAX_NODES
    && text + m.text <= MAX_BYTES
  }

  lemma FitsPlus(a: Measure, b: Measure, depth: nat, nodes: nat, text: nat)
    ensures Fits(Plus(a, b), depth, nodes, text)
            <==> Fits(a, depth, nodes, text) && Fits(b, depth, nodes + a.nodes, text + a.text)
  {
  }

  lemma FitsNode(m: Measure, ok: bool, depth: nat, nodes: nat, text: nat)
    ensures Fits(Node(m, ok), depth, nodes, text) <==> ok && depth <= MAX_DEPTH && Fits(m, depth + 1, nodes + 1, text)
  {
  }

  lemma ItemTotalStep(p: Policy, items: seq<Value>, i: nat)
    requires i < |items|
    ensures ItemTotal(p, items[i..]) == Plus(Total(p, items[i]), ItemTotal(p, items[i + 1..]))
  {
    assert items[i..][1..] == items[i + 1..];
  }

  lemma ValueTotalStep(p: Policy, fields: seq<Field>, i: nat)
    requires i < |fields|
    ensures ValueTotal(p, fields[i..]) == Plus(Total(p, fields[i].value), ValueTotal(p, fields[i + 1..]))
  {
    assert fields[i..][1..] == fields[i + 1..];
  }

  lemma KeyTotalStep(p: Policy, fields: seq<Field>, i: nat)
    requires i < |fields|
    ensures KeyTotal(p, fields[i..]) ==
            Plus(Measure(0, |Utf8(fields[i].key)|, 0, p.key(fields[i].key)), KeyTotal(p, fields[i + 1..]))
  {
    assert fields[i..][1..] == fields[i + 1..];
  }

  lemma FieldTotalsEnd(p: Policy, fields: seq<Field>, i: nat)
    requires i == |fields|
    ensures KeyTotal(p, fields[i..]) == ZERO && ValueTotal(p, fields[i..]) == ZERO && EntryTotal(p, fields[i..]) == ZERO
  {
    assert fields[i..] == [];
  }

  // ---------- The normalized tree ----------

  /** The tree with every leaf text normalized and its fields where they were. */
  function Replaced(p: Policy, v: Value): (r: Value)
    decreases v, 1
  {
    match v
    case Str(s) => Str(if p.leaf(s).Some? then p.leaf(s).value else s)
    case Arr(items) => Arr(ReplacedItems(p, items))
    case Obj(fields) => Obj(ReplacedFields(p, fields))
    case _ => v
  }

  function ReplacedItems(p: Policy, items: seq<Value>): (r: seq<Value>)
    ensures |r| == |items|
    ensures forall i :: 0 <= i < |items| ==> r[i] == Replaced(p, items[i])
    decreases items, 0
  {
    if items == [] then [] else [Replaced(p, items[0])] + ReplacedItems(p, items[1..])
  }

  function ReplacedFields(p: Policy, fields: seq<Field>): (r: seq<Field>)
    ensures |r| == |fields|
    ensures forall i :: 0 <= i < |fields| ==> r[i] == Field(fields[i].key, Replaced(p, fields[i].value))
    decreases fields, 0
  {
    if fields == [] then []
    else [Field(fields[0].key, Replaced(p, fields[0].value))] + ReplacedFields(p, fields[1..])
  }

  /** What admission yields: the canonical text of the normalized tree, or nothing. */
  function Admit(p: Policy, tree: Value): (r: Option<string>)
  {
    var text := CanonicalText(Replaced(p, tree));
    if Fits(Total(p, tree), 1, 0, 0) && |Utf8(text)| <= MAX_BYTES then Some(text) else None
  }

  /** Admission of a document's text: raw cap, parse, then admission of the tree. */
  function Checked(p: Policy, raw: string): (r: Option<string>)
  {
    if |Utf8(raw)| <= MAX_BYTES && Parse(raw).Some? then Admit(p, Parse(raw).value) else None
  }

  // ---------- The reference walk ----------

  class Budget {
    var nodes: nat
    var textBytes: nat

    constructor ()
      ensures nodes == 0 && textBytes == 0
    {
      nodes, textBytes := 0, 0;
    }
  }

  function SortFields(fields: seq<Field>): (r: seq<Field>)
    ensures |r| == |fields|
    ensures forall f :: f in r <==> f in fields
  {
    if fields == [] then []
    else
      assert fields == [fields[0]] + fields[1..];
      InsertField(fields[0], SortFields(fields[1..]))
  }

  /** A normalized field of the result. */
  function Finished(p: Policy, f: Field): (r: Field)
  {
    Field(f.key, Ordered(Replaced(p, f.value)))
  }

  method Normalize(p: Policy, tree: Value, depth: nat, budget: Budget) returns (r: Option<Value>)
    modifies budget
    ensures r.Some? <==> Fits(Total(p, tree), depth, old(budget.nodes), old(budget.textBytes))
    ensures r.Some? ==> r.value == Ordered(Replaced(p, tree))
    ensures r.Some? ==> budget.nodes == old(budget.nodes) + Total(p, tree).nodes
                        && budget.textBytes == old(budget.textBytes) + Total(p, tree).text
    decreases tree, 1
  {
    hide Utf8, OrderItems, OrderFields, ReplacedItems, ReplacedFields, ItemTotal, KeyTotal, ValueTotal, DistinctKeys;
    budget.nodes := budget.nodes + 1;
    if depth > MAX_DEPTH || budget.nodes > MAX_NODES {
      return None;
    }
    match tree {
      case Str(s) =>
        budget.textBytes := budget.textBytes + |Utf8(s)|;
        var leaf := p.leaf(s);
        if leaf.None? {
          return None;
        }
        r := Some(Str(leaf.value));
      case Arr(items) =>
        FitsNode(ItemTotal(p, items), true, depth, old(budget.nodes), old(budget.textBytes));
        var list := NormalizeItems(p, items, depth, budget);
        if list.None? {
          return None;
        }
        r := Some(Arr(list.value));
      case Obj(fields) =>
        FitsNode(EntryTotal(p, fields), DistinctKeys(fields), depth, old(budget.nodes), old(budget.textBytes));
        var list := NormalizeObject(p, fields, depth, budget);
        if list.None? {
          return None;
        }
        r := Some(Obj(list.value));
      case _ =>
        r := Some(tree);
    }
    if budget.textBytes > MAX_BYTES {
      return None;
    }
  }

  method NormalizeItems(p: Policy, items: seq<Value>, depth: nat, budget: Budget) returns (r: Option<seq<Value>>)
    requires budget.nodes <= MAX_NODES
    modifies budget
    ensures r.None? ==> !Fits(ItemTotal(p, items), depth + 1, old(budget.nodes), old(budget.textBytes))
    ensures r.Some? ==> r.value == OrderItems(ReplacedItems(p, items))
                        && budget.nodes == old(budget.nodes) + ItemTotal(p, items).nodes
                        && budget.textBytes == old(budget.textBytes) + ItemTotal(p, items).text
    ensures r.Some? && budget.textBytes <= MAX_BYTES ==>
              Fits(ItemTotal(p, items), depth + 1, old(budget.nodes), old(budget.textBytes))
    decreases items, 0
  {
    hide Ordered, Replaced, Total;
    var list: seq<Value> := [];
    var i := 0;
    ghost var n0, t0 := budget.nodes, budget.textBytes;
    ghost var whole := ItemTotal(p, items);
    assert items[0..] == items;
    while i < |items|
      invariant 0 <= i <= |items| && |list| == i
      invariant forall k :: 0 <= k < i ==> list[k] == Ordered(Replaced(p, items[k]))
      invariant budget.nodes + ItemTotal(p, items[i..]).nodes == n0 + whole.nodes
      invariant budget.textBytes + ItemTotal(p, items[i..]).text == t0 + whole.text
      invariant Fits(whole, depth + 1, n0, t0)
                <==> Fits(ItemTotal(p, items[i..]), depth + 1, budget.nodes, budget.textBytes)
      invariant budget.nodes <= MAX_NODES
    {
      ItemTotalStep(p, items, i);
      FitsPlus(Total(p, items[i]), ItemTotal(p, items[i + 1..]), depth + 1, budget.nodes, budget.textBytes);
      var item := Normalize(p, items[i], depth + 1, budget);
      if item.None? {
        return None;
      }
      list := list + [item.value];
      i := i + 1;
    }
    assert items[i..] == [];
    assert list == OrderItems(ReplacedItems(p, items));
    return Some(list);
  }

  method NormalizeObject(p: Policy, fields: seq<Field>, depth: nat, budget: Budget) returns (r: Option<seq<Field>>)
    requires budget.nodes <= MAX_NODES
    modifies budget
    ensures r.None? ==> !(DistinctKeys(fields)
                          && Fits(EntryTotal(p, fields), depth + 1, old(budget.nodes), old(budget.textBytes)))
    ensures r.Some? ==> r.value == OrderFields(ReplacedFields(p, fields)) && DistinctKeys(fields)
                        && budget.nodes == old(budget.nodes) + EntryTotal(p, fields).nodes
                        && budget.textBytes == old(budget.textBytes) + EntryTotal(p, fields).text
    ensures r.Some? && budget.textBytes <= MAX_BYTES ==>
              Fits(EntryTotal(p, fields), depth + 1, old(budget.nodes), old(budget.textBytes))
    decreases fields, 1
  {
    hide KeyTotal, ValueTotal, OrderFields, ReplacedFields;
    FitsPlus(KeyTotal(p, fields), ValueTotal(p, fields), depth + 1, budget.nodes, budget.textBytes);
    var ok := ChargeKeys(p, fields, budget);
    if !ok {
      return None;
    }
    r := NormalizeFields(p, fields, depth, budget);
  }

  /** What is left for the duplicate check once the keys in `seen` have gone by. */
  ghost predicate Unseen(fields: seq<Field>, seen: set<string>) {
    fields == [] || (fields[0].key !in seen && Unseen(fields[1..], seen + {fields[0].key}))
  }

  lemma {:induction false} UnseenIsDistinct(fields: seq<Field>, seen: set<string>)
    ensures Unseen(fields, seen) <==> DistinctKeys(fields) && forall f :: f in fields ==> f.key !in seen
  {
    if fields != [] {
      UnseenIsDistinct(fields[1..], seen + {fields[0].key});
      assert forall f :: f in fields ==> f == fields[0] || f in fields[1..];
      assert forall k :: 0 <= k < |fields| - 1 ==> fields[1..][k] == fields[k + 1] && fields[1..][k] in fields[1..];
    }
  }

  /** The first pass over an object: charge, admit and de-duplicate every key. */
  method ChargeKeys(p: Policy, fields: seq<Field>, budget: Budget) returns (ok: bool)
    modifies budget`textBytes
    ensures ok <==> KeyTotal(p, fields).admissible && DistinctKeys(fields)
    ensures ok ==> budget.textBytes == old(budget.textBytes) + KeyTotal(p, fields).text
  {
    hide KeyTotal, ValueTotal, EntryTotal, Utf8, DistinctKeys;
    var seen: set<string> := {};
    var i := 0;
    ghost var whole := KeyTotal(p, fields);
    assert fields[0..] == fields;
    UnseenIsDistinct(fields, {});
    while i < |fields|
      invariant 0 <= i <= |fields|
      invariant Unseen(fields[i..], seen) <==> DistinctKeys(fields)
      invariant budget.textBytes + KeyTotal(p, fields[i..]).text == old(budget.textBytes) + whole.text
      invariant whole.admissible <==> KeyTotal(p, fields[i..]).admissible
    {
      KeyTotalStep(p, fields, i);
      assert fields[i..][1..] == fields[i + 1..];
      budget.textBytes := budget.textBytes + |Utf8(fields[i].key)|;
      if !p.key(fields[i].key) {
        return false;
      }
      if fields[i].key in seen {
        return false;
      }
      seen := seen + {fields[i].key};
      i := i + 1;
    }
    FieldTotalsEnd(p, fields, i);
    ok := true;
  }

  method NormalizeFields(p: Policy, fields: seq<Field>, depth: nat, budget: Budget) returns (r: Option<seq<Field>>)
    requires budget.nodes <= MAX_NODES
    modifies budget
    ensures r.None? ==> !Fits(ValueTotal(p, fields), depth + 1, old(budget.nodes), old(budget.textBytes))
    ensures r.Some? ==> r.value == OrderFields(ReplacedFields(p, fields))
                        && budget.nodes == old(budget.nodes) + ValueTotal(p, fields).nodes
                        && budget.textBytes == old(budget.textBytes) + ValueTotal(p, fields).text
    ensures r.Some? && budget.textBytes <= MAX_BYTES ==>
              Fits(ValueTotal(p, fields), depth + 1, old(budget.nodes), old(budget.textBytes))
    decreases fields, 0
  {
    hide Ordered, Replaced, Total, SortFields, ValueTotal, KeyTotal, EntryTotal;
    var entries := SortFields(fields);
    SortedTotal(p, fields);
    var members: seq<Field> := [];
    var i := 0;
    ghost var n0, t0 := budget.nodes, budget.textBytes;
    ghost var whole := ValueTotal(p, entries);
    assert entries[0..] == entries;
    while i < |entries|
      invariant 0 <= i <= |entries| && |members| == i
      invariant forall k :: 0 <= k < i ==> members[k] == Finished(p, entries[k])
      invariant budget.nodes + ValueTotal(p, entries[i..]).nodes == n0 + whole.nodes
      invariant budget.textBytes + ValueTotal(p, entries[i..]).text == t0 + whole.text
      invariant Fits(whole, depth + 1, n0, t0)
                <==> Fits(ValueTotal(p, entries[i..]), depth + 1, budget.nodes, budget.textBytes)
      invariant budget.nodes <= MAX_NODES
    {
      ValueTotalStep(p, entries, i);
      FitsPlus(Total(p, entries[i].value), ValueTotal(p, entries[i + 1..]), depth + 1, budget.nodes, budget.textBytes);
      assert entries[i] in fields;
      var value := Normalize(p, entries[i].value, depth + 1, budget);
      if value.None? {
        return None;
      }
      members := members + [Field(entries[i].key, value.value)];
      i := i + 1;
    }
    FieldTotalsEnd(p, entries, i);
    SortedFinished(p, fields, members);
    return Some(members);
  }

  // ---------- Sorting commutes with everything that keeps keys ----------

  lemma {:induction false} InsertTotal(p: Policy, f: Field, sorted: seq<Field>)
    ensures ValueTotal(p, InsertField(f, sorted)) == Plus(Total(p, f.value), ValueTotal(p, sorted))
  {
    if sorted != [] && !LexLess(FieldKey(f), FieldKey(sorted[0])) {
      InsertTotal(p, f, sorted[1..]);
      var rest := InsertField(f, sorted[1..]);
      assert ([sorted[0]] + rest)[1..] == rest;
    } else {
      assert ([f] + sorted)[1..] == sorted;
    }
  }

  lemma {:induction false} SortedTotal(p: Policy, fields: seq<Field>)
    ensures ValueTotal(p, SortFields(fields)) == ValueTotal(p, fields)
  {
    if fields != [] {
      SortedTotal(p, fields[1..]);
      InsertTotal(p, fields[0], SortFields(fields[1..]));
    }
  }

  /** `g` is `f` field by field, keys kept and each value finished. */
  predicate FinishedAll(p: Policy, f: seq<Field>, g: seq<Field>)
  {
    |f| == |g| && forall k :: 0 <= k < |f| ==> g[k] == Finished(p, f[k])
  }

  lemma {:induction false} InsertFinished(p: Policy, f: Field, s: seq<Field>, t: seq<Field>)
    requires FinishedAll(p, s, t)
    ensures FinishedAll(p, InsertField(f, s), InsertField(Finished(p, f), t))
  {
    hide Ordered, Replaced, LexLess, Utf8;
    if s != [] && !LexLess(FieldKey(f), FieldKey(s[0])) {
      InsertFinished(p, f, s[1..], t[1..]);
    }
  }

  lemma {:induction false} SortedFinishedBy(p: Policy, fields: seq<Field>)
    ensures FinishedAll(p, SortFields(fields), OrderFields(ReplacedFields(p, fields)))
  {
    if fields != [] {
      SortedFinishedBy(p, fields[1..]);
      assert ReplacedFields(p, fields)[1..] == ReplacedFields(p, fields[1..]);
      InsertFinished(p, fields[0], SortFields(fields[1..]), OrderFields(ReplacedFields(p, fields[1..])));
    }
  }

  lemma SortedFinished(p: Policy, fields: seq<Field>, members: seq<Field>)
    requires FinishedAll(p, SortFields(fields), members)
    ensures members == OrderFields(ReplacedFields(p, fields))
  {
    SortedFinishedBy(p, fields);
  }

  // ---------- The streaming visitor ----------

  /** Depth before nodes, bytes charged as text is met, keys interleaved with values. */
  method Visit(p: Policy, tree: Value, depth: nat, state: Budget) returns (r: Option<Value>)
    requires state.textBytes <= MAX_BYTES
    modifies state
    ensures r.Some? <==> Fits(Total(p, tree), depth, old(state.nodes), old(state.textBytes))
    ensures r.Some? ==> r.value == Replaced(p, tree)
    ensures r.Some? ==> state.nodes == old(state.nodes) + Total(p, tree).nodes
                        && state.textBytes == old(state.textBytes) + Total(p, tree).text
    decreases tree, 1
  {
    if depth > MAX_DEPTH {
      return None;
    }
    state.nodes := state.nodes + 1;
    if state.nodes > MAX_NODES {
      return None;
    }
    match tree {
      case Str(s) =>
        state.textBytes := state.textBytes + |Utf8(s)|;
        if state.textBytes > MAX_BYTES {
          return None;
        }
        var leaf := p.leaf(s);
        if leaf.None? {
          return None;
        }
        r := Some(Str(leaf.value));
      case Arr(items) =>
        var list := VisitItems(p, items, depth, state);
        if list.None? {
          return None;
        }
        r := Some(Arr(list.value));
      case Obj(fields) =>
        var list := VisitFields(p, fields, depth, state);
        if list.None? {
          return None;
        }
        r := Some(Obj(list.value));
      case _ =>
        r := Some(tree);
    }
  }

  method VisitItems(p: Policy, items: seq<Value>, depth: nat, state: Budget) returns (r: Option<seq<Value>>)
    requires state.textBytes <= MAX_BYTES && state.nodes <= MAX_NODES
    modifies state
    ensures r.Some? <==> Fits(ItemTotal(p, items), depth + 1, old(state.nodes), old(state.textBytes))
    ensures r.Some? ==> r.value == ReplacedItems(p, items)
                        && state.nodes == old(state.nodes) + ItemTotal(p, items).nodes
                        && state.textBytes == old(state.textBytes) + ItemTotal(p, items).text
    decreases items, 0
  {
    hide Replaced, Total;
    var values: seq<Value> := [];
    var i := 0;
    ghost var n0, t0 := state.nodes, state.textBytes;
    ghost var whole := ItemTotal(p, items);
    assert items[0..] == items;
    while i < |items|
      invariant 0 <= i <= |items| && |values| == i
      invariant forall k :: 0 <= k < i ==> values[k] == Replaced(p, items[k])
      invariant state.nodes + ItemTotal(p, items[i..]).nodes == n0 + whole.nodes
      invariant state.textBytes + ItemTotal(p, items[i..]).text == t0 + whole.text
      invariant Fits(whole, depth + 1, n0, t0)
                <==> Fits(ItemTotal(p, items[i..]), depth + 1, state.nodes, state.textBytes)
      invariant state.textBytes <= MAX_BYTES && state.nodes <= MAX_NODES
    {
      ItemTotalStep(p, items, i);
      FitsPlus(Total(p, items[i]), ItemTotal(p, items[i + 1..]), depth + 1, state.nodes, state.textBytes);
      var item := Visit(p, items[i], depth + 1, state);
      if item.None? {
        return None;
      }
      values := values + [item.value];
      i := i + 1;
    }
    assert items[i..] == [];
    assert values == ReplacedItems(p, items);
    return Some(values);
  }

  /** Serving one entry: its key, then its value, then the rest. */
  lemma FitsEntry(p: Policy, fields: seq<Field>, i: nat, depth: nat, nodes: nat, text: nat)
    requires i < |fields|
    ensures var key := |Utf8(fields[i].key)|;
            var value := Total(p, fields[i].value);
            var rest := EntryTotal(p, fields[i + 1..]);
            && EntryTotal(p, fields[i..]).nodes == value.nodes + rest.nodes
            && EntryTotal(p, fields[i..]).text == key + value.text + rest.text
            && (Fits(EntryTotal(p, fields[i..]), depth, nodes, text)
                <==> p.key(fields[i].key) && Fits(value, depth, nodes, text + key)
                     && Fits(rest, depth, nodes + value.nodes, text + key + value.text))
  {
    hide Total, Utf8, KeyTotal, ValueTotal;
    KeyTotalStep(p, fields, i);
    ValueTotalStep(p, fields, i);
    EntryArithmetic(Measure(0, |Utf8(fields[i].key)|, 0, p.key(fields[i].key)), KeyTotal(p, fields[i + 1..]),
                    Total(p, fields[i].value), ValueTotal(p, fields[i + 1..]), depth, nodes, text);
  }

  lemma EntryArithmetic(k: Measure, ks: Measure, v: Measure, vs: Measure, depth: nat, nodes: nat, text: nat)
    requires k.nodes == k.height == 0
    ensures var whole := Plus(Plus(k, ks), Plus(v, vs));
            var rest := Plus(ks, vs);
            && whole.nodes == v.nodes + rest.nodes && whole.text == k.text + v.text + rest.text
            && (Fits(whole, depth, nodes, text)
                <==> k.admissible && Fits(v, depth, nodes, text + k.text)
                     && Fits(rest, depth, nodes + v.nodes, text + k.text + v.text))
  {
  }

  method VisitFields(p: Policy, fields: seq<Field>, depth: nat, state: Budget) returns (r: Option<seq<Field>>)
    requires state.textBytes <= MAX_BYTES && state.nodes <= MAX_NODES
    modifies state
    ensures r.Some? <==> DistinctKeys(fields)
                         && Fits(EntryTotal(p, fields), depth + 1, old(state.nodes), old(state.textBytes))
    ensures r.Some? ==> r.value == ReplacedFields(p, fields)
                        && state.nodes == old(state.nodes) + EntryTotal(p, fields).nodes
                        && state.textBytes == old(state.textBytes) + EntryTotal(p, fields).text
    decreases fields, 0
  {
    hide Replaced, Total, EntryTotal, Utf8;
    var members: seq<Field> := [];
    var i := 0;
    ghost var n0, t0 := state.nodes, state.textBytes;
    ghost var whole := EntryTotal(p, fields);
    assert fields[0..] == fields;
    while i < |fields|
      invariant 0 <= i <= |fields| && |members| == i
      invariant forall k :: 0 <= k < i ==> members[k] == Field(fields[k].key, Replaced(p, fields[k].value))
      invariant forall j, k :: 0 <= j < k < i ==> fields[j].key != fields[k].key
      invariant state.nodes + EntryTotal(p, fields[i..]).nodes == n0 + whole.nodes
      invariant state.textBytes + EntryTotal(p, fields[i..]).text == t0 + whole.text
      invariant Fits(whole, depth + 1, n0, t0)
                <==> Fits(EntryTotal(p, fields[i..]), depth + 1, state.nodes, state.textBytes)
      invariant state.textBytes <= MAX_BYTES && state.nodes <= MAX_NODES
    {
      FitsEntry(p, fields, i, depth + 1, state.nodes, state.textBytes);
      state.textBytes := state.textBytes + |Utf8(fields[i].key)|;
      if state.textBytes > MAX_BYTES {
        return None;
      }
      if !p.key(fields[i].key) {
        return None;
      }
      if exists k :: 0 <= k < |members| && members[k].key == fields[i].key {
        return None;
      }
      var value := Visit(p, fields[i].value, depth + 1, state);
      if value.None? {
        return None;
      }
      members := members + [Field(fields[i].key, value.value)];
      i := i + 1;
    }
    FieldTotalsEnd(p, fields, i);
    assert members == ReplacedFields(p, fields);
    return Some(members);
  }


  // ---------- Both walks decide the same admission ----------

  /** The reference: walk, render, then the cap on the rendered bytes. */
  method ReferenceAdmit(p: Policy, tree: Value) returns (r: Option<string>)
    ensures r == Admit(p, tree)
  {
    var budget := new Budget();
    var value := Normalize(p, tree, 1, budget);
    if value.None? {
      return None;
    }
    var text := Render(value.value);
    return if |Utf8(text)| <= MAX_BYTES then Some(text) else None;
  }

  /** The product: raw cap, parse, visit, sort and render, then the cap on the canonical bytes. */
  method CheckedParse(p: Policy, raw: string) returns (r: Option<string>)
    ensures r == Checked(p, raw)
  {
    if |Utf8(raw)| > MAX_BYTES {
      return None;
    }
    var tree := Parse(raw);
    if tree.None? {
      return None;
    }
    var state := new Budget();
    var value := Visit(p, tree.value, 1, state);
    if value.None? {
      return None;
    }
    var canonical := CanonicalText(value.value);
    return if |Utf8(canonical)| <= MAX_BYTES then Some(canonical) else None;
  }

  // ---------- Field order does not matter ----------

  lemma {:induction false} ReplacedInsert(p: Policy, f: Field, sorted: seq<Field>)
    ensures ReplacedFields(p, InsertField(f, sorted))
            == InsertField(Field(f.key, Replaced(p, f.value)), ReplacedFields(p, sorted))
  {
    hide Replaced;
    if sorted != [] && !LexLess(FieldKey(f), FieldKey(sorted[0])) {
      ReplacedInsert(p, f, sorted[1..]);
      var rest := InsertField(f, sorted[1..]);
      assert ([sorted[0]] + rest)[1..] == rest;
      assert ReplacedFields(p, sorted)[1..] == ReplacedFields(p, sorted[1..]);
    } else {
      assert ([f] + sorted)[1..] == sorted;
    }
  }

  /** Normalizing leaves and sorting fields can be done in either order. */
  lemma {:induction false} OrderedReplaced(p: Policy, v: Value)
    ensures Ordered(Replaced(p, v)) == Replaced(p, Ordered(v))
    decreases v, 1
  {
    match v {
      case Arr(items) =>
        forall i | 0 <= i < |items| ensures Ordered(Replaced(p, items[i])) == Replaced(p, Ordered(items[i])) {
          OrderedReplaced(p, items[i]);
        }
        assert OrderItems(ReplacedItems(p, items)) == ReplacedItems(p, OrderItems(items));
      case Obj(fields) => OrderedReplacedFields(p, fields);
      case _ =>
    }
  }

  lemma {:induction false} OrderedReplacedFields(p: Policy, fields: seq<Field>)
    ensures OrderFields(ReplacedFields(p, fields)) == ReplacedFields(p, OrderFields(fields))
    decreases fields, 0
  {
    if fields != [] {
      OrderedReplaced(p, fields[0].value);
      OrderedReplacedFields(p, fields[1..]);
      assert ReplacedFields(p, fields)[1..] == ReplacedFields(p, fields[1..]);
      ReplacedInsert(p, OrderField(fields[0]), OrderFields(fields[1..]));
    }
  }

  lemma {:induction false} InsertKeyTotal(p: Policy, f: Field, sorted: seq<Field>)
    ensures KeyTotal(p, InsertField(f, sorted))
            == Plus(Measure(0, |Utf8(f.key)|, 0, p.key(f.key)), KeyTotal(p, sorted))
  {
    hide Utf8;
    if sorted != [] && !LexLess(FieldKey(f), FieldKey(sorted[0])) {
      InsertKeyTotal(p, f, sorted[1..]);
      var rest := InsertField(f, sorted[1..]);
      assert ([sorted[0]] + rest)[1..] == rest;
    } else {
      assert ([f] + sorted)[1..] == sorted;
    }
  }

  /** The totals do not depend on field order. */
  lemma {:induction false} OrderedTotal(p: Policy, v: Value)
    requires Distinct(v)
    ensures Total(p, Ordered(v)) == Total(p, v)
    decreases v, 1
  {
    match v {
      case Arr(items) => OrderedItemTotal(p, items);
      case Obj(fields) =>
        OrderedFieldTotal(p, fields);
        OrderedIsSorted(v);
        SortedIsDistinct(Ordered(v));
      case _ =>
    }
  }

  lemma {:induction false} OrderedItemTotal(p: Policy, items: seq<Value>)
    requires forall i :: 0 <= i < |items| ==> Distinct(items[i])
    ensures ItemTotal(p, OrderItems(items)) == ItemTotal(p, items)
    decreases items, 0
  {
    if items != [] {
      OrderedTotal(p, items[0]);
      OrderedItemTotal(p, items[1..]);
      assert OrderItems(items)[1..] == OrderItems(items[1..]);
    }
  }

  lemma {:induction false} OrderedFieldTotal(p: Policy, fields: seq<Field>)
    requires forall i :: 0 <= i < |fields| ==> Distinct(fields[i].value)
    ensures KeyTotal(p, OrderFields(fields)) == KeyTotal(p, fields)
    ensures ValueTotal(p, OrderFields(fields)) == ValueTotal(p, fields)
    decreases fields, 0
  {
    if fields != [] {
      OrderedTotal(p, fields[0].value);
      OrderedFieldTotal(p, fields[1..]);
      InsertTotal(p, OrderField(fields[0]), OrderFields(fields[1..]));
      InsertKeyTotal(p, OrderField(fields[0]), OrderFields(fields[1..]));
    }
  }

  /** Trees equal up to field order get the same verdict and the same text. */
  lemma FieldOrderIrrelevant(p: Policy, v: Value, w: Value)
    requires Distinct(v) && Distinct(w) && Same(v, w)
    ensures Admit(p, v) == Admit(p, w)
  {
    OrderedIffSame(v, w);
    OrderedTotal(p, v);
    OrderedTotal(p, w);
    OrderedReplaced(p, v);
    OrderedReplaced(p, w);
  }

  /** An admissible tree repeats no key at any depth. */
  lemma {:induction false} AdmissibleIsDistinct(p: Policy, v: Value)
    requires Total(p, v).admissible
    ensures Distinct(v) && Distinct(Replaced(p, v))
    decreases v, 1
  {
    match v {
      case Arr(items) => AdmissibleItems(p, items);
      case Obj(fields) => AdmissibleFields(p, fields);
      case _ =>
    }
  }

  lemma {:induction false} AdmissibleItems(p: Policy, items: seq<Value>)
    requires ItemTotal(p, items).admissible
    ensures forall i :: 0 <= i < |items| ==> Distinct(items[i]) && Distinct(Replaced(p, items[i]))
    decreases items, 0
  {
    hide Distinct, Replaced, Total;
    if items != [] {
      AdmissibleIsDistinct(p, items[0]);
      AdmissibleItems(p, items[1..]);
      forall i | 0 <= i < |items| ensures Distinct(items[i]) && Distinct(Replaced(p, items[i])) {
        if i > 0 {
          assert items[i] == items[1..][i - 1];
        }
      }
    }
  }

  lemma {:induction false} AdmissibleFields(p: Policy, fields: seq<Field>)
    requires ValueTotal(p, fields).admissible
    ensures forall i :: 0 <= i < |fields| ==> Distinct(fields[i].value) && Distinct(Replaced(p, fields[i].value))
    decreases fields, 0
  {
    hide Distinct, Replaced, Total;
    if fields != [] {
      AdmissibleIsDistinct(p, fields[0].value);
      AdmissibleFields(p, fields[1..]);
      forall i | 0 <= i < |fields| ensures Distinct(fields[i].value) && Distinct(Replaced(p, fields[i].value)) {
        if i > 0 {
          assert fields[i] == fields[1..][i - 1];
        }
      }
    }
  }

  // ---------- Admission is a fixed point ----------

  /** Normalizing a normalized leaf changes nothing. */
  ghost predicate Idempotent(p: Policy)
  {
    forall s :: p.leaf(s).Some? ==> p.leaf(p.leaf(s).value) == Some(p.leaf(s).value)
  }

  lemma {:induction false} EscapeGrows(s: string)
    ensures |Utf8(Escape(s))| >= |Utf8(s)|
  {
    if s != "" {
      EscapeGrows(s[1..]);
      Utf8Concat(EscapeChar(s[0]), Escape(s[1..]));
      assert |Utf8(EscapeChar(s[0]))| >= |EncodeScalar(s[0])| by {
        if EscapeChar(s[0]) == [s[0]] {
          assert Utf8([s[0]]) == EncodeScalar(s[0]) + Utf8([s[0]][1..]);
        } else {
          assert |EncodeScalar(s[0])| == 1;
        }
      }
    }
  }

  lemma Utf8Wrapped(a: string, b: string, c: string)
    ensures |Utf8(a + b + c)| == |Utf8(a)| + |Utf8(b)| + |Utf8(c)|
  {
    Utf8Concat(a + b, c);
    Utf8Concat(a, b);
  }

  /** The text a tree holds never exceeds the text that renders it. */
  lemma {:induction false} TextWithinRendering(p: Policy, v: Value)
    ensures Total(p, v).text <= |Utf8(Render(v))|
    decreases v, 1
  {
    hide Utf8;
    match v {
      case Str(s) => EscapeGrows(s); Utf8Wrapped("\"", Escape(s), "\"");
      case Arr(items) => ItemTextWithin(p, items); Utf8Wrapped("[", RenderItems(items), "]");
      case Obj(fields) => FieldTextWithin(p, fields); Utf8Wrapped("{", RenderFields(fields), "}");
      case _ =>
    }
  }

  lemma {:induction false} ItemTextWithin(p: Policy, items: seq<Value>)
    ensures ItemTotal(p, items).text <= |Utf8(RenderItems(items))|
    decreases items, 0
  {
    hide Utf8;
    if items != [] {
      TextWithinRendering(p, items[0]);
      ItemTextWithin(p, items[1..]);
      Utf8Wrapped(Render(items[0]), ",", RenderItems(items[1..]));
    }
  }

  lemma {:induction false} FieldTextWithin(p: Policy, fields: seq<Field>)
    ensures EntryTotal(p, fields).text <= |Utf8(RenderFields(fields))|
    decreases fields, 0
  {
    hide Utf8, Total, Render, Escape;
    if fields != [] {
      var f := fields[0];
      TextWithinRendering(p, f.value);
      EscapeGrows(f.key);
      FieldTextWithin(p, fields[1..]);
      Utf8Wrapped(RenderField(f), ",", RenderFields(fields[1..]));
      Utf8Wrapped("\"" + Escape(f.key), "\":", Render(f.value));
      Utf8Wrapped("\"", Escape(f.key), "");
      assert "\"" + Escape(f.key) + "" == "\"" + Escape(f.key);
    }
  }

  /** Same shape and verdict; only the byte totals may differ. */
  predicate Alike(a: Measure, b: Measure)
  {
    a.nodes == b.nodes && a.height == b.height && a.admissible == b.admissible
  }

  lemma {:induction false} ReplacedTwice(p: Policy, v: Value)
    requires Idempotent(p) && Total(p, v).admissible
    ensures Replaced(p, Replaced(p, v)) == Replaced(p, v)
    ensures Alike(Total(p, Replaced(p, v)), Total(p, v))
    decreases v, 1
  {
    match v {
      case Arr(items) => ReplacedItemsTwice(p, items);
      case Obj(fields) => ReplacedFieldsTwice(p, fields);
      case _ =>
    }
  }

  lemma {:induction false} ReplacedItemsTwice(p: Policy, items: seq<Value>)
    requires Idempotent(p) && ItemTotal(p, items).admissible
    ensures ReplacedItems(p, ReplacedItems(p, items)) == ReplacedItems(p, items)
    ensures Alike(ItemTotal(p, ReplacedItems(p, items)), ItemTotal(p, items))
    decreases items, 0
  {
    if items != [] {
      ReplacedTwice(p, items[0]);
      ReplacedItemsTwice(p, items[1..]);
      assert ReplacedItems(p, items)[1..] == ReplacedItems(p, items[1..]);
    }
  }

  lemma {:induction false} ReplacedFieldsTwice(p: Policy, fields: seq<Field>)
    requires Idempotent(p) && ValueTotal(p, fields).admissible
    ensures ReplacedFields(p, ReplacedFields(p, fields)) == ReplacedFields(p, fields)
    ensures KeyTotal(p, ReplacedFields(p, fields)) == KeyTotal(p, fields)
    ensures Alike(ValueTotal(p, ReplacedFields(p, fields)), ValueTotal(p, fields))
    decreases fields, 0
  {
    hide Utf8;
    if fields != [] {
      ReplacedTwice(p, fields[0].value);
      ReplacedFieldsTwice(p, fields[1..]);
      assert ReplacedFields(p, fields)[1..] == ReplacedFields(p, fields[1..]);
    }
  }

  lemma {:induction false} ReplacedTokens(p: Policy, v: Value)
    requires Tokens(v)
    ensures Tokens(Replaced(p, v))
    decreases v
  {
    match v {
      case Arr(items) =>
        forall i | 0 <= i < |items| ensures Tokens(Replaced(p, items[i])) { ReplacedTokens(p, items[i]); }
      case Obj(fields) =>
        forall i | 0 <= i < |fields| ensures Tokens(Replaced(p, fields[i].value)) { ReplacedTokens(p, fields[i].value); }
      case _ =>
    }
  }

  /** Admitted text reads back as the sorted, normalized tree, and admitting that tree changes nothing. */
  lemma Readmission(p: Policy, v: Value)
    requires Idempotent(p) && Tokens(v) && Admit(p, v).Some?
    ensures var stored := Ordered(Replaced(p, v));
            && Parse(Admit(p, v).value) == Some(stored)
            && SortedKeys(stored) && Tokens(stored)
            && Replaced(p, stored) == stored
            && Admit(p, stored) == Admit(p, v)
  {
    var w := Replaced(p, v);
    AdmissibleIsDistinct(p, v);
    ReplacedTokens(p, v);
    ReplacedTwice(p, v);
    ParseCanonical(w);
    OrderedIsSorted(w);
    OrderedReplaced(p, w);
    OrderedTotal(p, w);
    SortedFixed(Ordered(w));
    TextWithinRendering(p, Ordered(w));
  }

  // ---------- The limits, node by node ----------

  /** Every node of a tree, the root first. */
  function Nodes(v: Value): (ns: seq<Value>)
    decreases v, 1
  {
    [v] + match v
          case Arr(items) => ItemNodes(items)
          case Obj(fields) => FieldNodes(fields)
          case _ => []
  }

  function ItemNodes(items: seq<Value>): (ns: seq<Value>)
    decreases items, 0
  {
    if items == [] then [] else Nodes(items[0]) + ItemNodes(items[1..])
  }

  function FieldNodes(fields: seq<Field>): (ns: seq<Value>)
    decreases fields, 0
  {
    if fields == [] then [] else Nodes(fields[0].value) + FieldNodes(fields[1..])
  }

  function KeyBytes(fields: seq<Field>): (n: nat)
  {
    if fields == [] then 0 else |Utf8(fields[0].key)| + KeyBytes(fields[1..])
  }

  /** The text a node holds itself: a string, or the keys of an object. */
  function OwnText(v: Value): (n: nat)
  {
    match v
    case Str(s) => |Utf8(s)|
    case Obj(fields) => KeyBytes(fields)
    case _ => 0
  }

  function TextOf(ns: seq<Value>): (n: nat)
  {
    if ns == [] then 0 else OwnText(ns[0]) + TextOf(ns[1..])
  }

  predicate NodeAdmissible(p: Policy, v: Value)
  {
    match v
    case Str(s) => p.leaf(s).Some?
    case Obj(fields) => DistinctKeys(fields) && forall i :: 0 <= i < |fields| ==> p.key(fields[i].key)
    case _ => true
  }

  ghost predicate AllAdmissible(p: Policy, ns: seq<Value>)
  {
    forall v :: v in ns ==> NodeAdmissible(p, v)
  }

  lemma {:induction false} TextOfConcat(a: seq<Value>, b: seq<Value>)
    ensures TextOf(a + b) == TextOf(a) + TextOf(b)
  {
    hide OwnText;
    if a == [] {
      assert a + b == b;
    } else {
      TextOfConcat(a[1..], b);
      assert (a + b)[1..] == a[1..] + b;
    }
  }

  lemma {:induction false} KeysAre(p: Policy, fields: seq<Field>)
    ensures KeyTotal(p, fields).text == KeyBytes(fields)
    ensures KeyTotal(p, fields).admissible <==> forall i :: 0 <= i < |fields| ==> p.key(fields[i].key)
  {
    hide Utf8;
    if fields != [] {
      KeysAre(p, fields[1..]);
      assert forall i :: 0 < i < |fields| ==> fields[i] == fields[1..][i - 1];
      assert fields[0] == fields[0];
    }
  }

  /** A measure counts these nodes. */
  ghost predicate Measures(m: Measure, p: Policy, ns: seq<Value>)
  {
    m.nodes == |ns| && m.text == TextOf(ns) && (m.admissible <==> AllAdmissible(p, ns))
  }

  lemma MeasuresPlus(p: Policy, m: Measure, a: seq<Value>, n: Measure, b: seq<Value>)
    requires Measures(m, p, a) && Measures(n, p, b)
    ensures Measures(Plus(m, n), p, a + b)
  {
    hide NodeAdmissible;
    TextOfConcat(a, b);
  }

  lemma NodeMeasures(p: Policy, v: Value, rest: seq<Value>)
    ensures TextOf([v] + rest) == OwnText(v) + TextOf(rest)
    ensures AllAdmissible(p, [v] + rest) <==> NodeAdmissible(p, v) && AllAdmissible(p, rest)
  {
    hide OwnText, NodeAdmissible;
    assert ([v] + rest)[1..] == rest;
    assert v in [v] + rest;
  }

  lemma {:induction false} TotalMeasures(p: Policy, v: Value)
    ensures Measures(Total(p, v), p, Nodes(v))
    decreases v, 1
  {
    hide ItemTotal, ValueTotal, KeyTotal, ItemNodes, FieldNodes, KeyBytes, DistinctKeys, Utf8, TextOf, AllAdmissible;
    match v {
      case Arr(items) =>
        ItemsMeasure(p, items);
        NodeMeasures(p, v, ItemNodes(items));
      case Obj(fields) =>
        FieldsMeasure(p, fields);
        KeysAre(p, fields);
        NodeMeasures(p, v, FieldNodes(fields));
      case _ =>
        NothingMeasured(p);
        NodeMeasures(p, v, []);
    }
  }

  lemma {:induction false} ItemsMeasure(p: Policy, items: seq<Value>)
    ensures Measures(ItemTotal(p, items), p, ItemNodes(items))
    decreases items, 0
  {
    hide Total, Nodes;
    if items == [] {
      NothingMeasured(p);
    } else {
      TotalMeasures(p, items[0]);
      ItemsMeasure(p, items[1..]);
      MeasuresPlus(p, Total(p, items[0]), Nodes(items[0]), ItemTotal(p, items[1..]), ItemNodes(items[1..]));
    }
  }

  lemma {:induction false} FieldsMeasure(p: Policy, fields: seq<Field>)
    ensures Measures(ValueTotal(p, fields), p, FieldNodes(fields))
    decreases fields, 0
  {
    hide Total, Nodes;
    if fields == [] {
      NothingMeasured(p);
    } else {
      TotalMeasures(p, fields[0].value);
      FieldsMeasure(p, fields[1..]);
      MeasuresPlus(p, Total(p, fields[0].value), Nodes(fields[0].value), ValueTotal(p, fields[1..]), FieldNodes(fields[1..]));
    }
  }

  lemma NothingMeasured(p: Policy)
    ensures Measures(ZERO, p, [])
  {
  }

  // ---------- Depth, path by path ----------

  lemma {:induction false} ItemHeight(p: Policy, items: seq<Value>, i: nat)
    requires i < |items|
    ensures Total(p, items[i]).height <= ItemTotal(p, items).height
  {
    hide Total;
    if i > 0 {
      ItemHeight(p, items[1..], i - 1);
    }
  }

  lemma {:induction false} FieldHeight(p: Policy, fields: seq<Field>, i: nat)
    requires i < |fields|
    ensures Total(p, fields[i].value).height <= ValueTotal(p, fields).height
  {
    hide Total;
    if i > 0 {
      FieldHeight(p, fields[1..], i - 1);
    }
  }

  /** No path is longer than the height says. */
  lemma {:induction false} PathsWithin(p: Policy, v: Value, path: seq<nat>)
    requires Sub(v, path).Some?
    ensures |path| < Total(p, v).height
    decreases |path|
  {
    hide ItemTotal, ValueTotal, KeyTotal, DistinctKeys;
    if path != [] {
      PathsWithin(p, Child(v, path[0]).value, path[1..]);
      match v {
        case Arr(items) => ItemHeight(p, items, path[0]);
        case Obj(fields) => FieldHeight(p, fields, path[0]);
      }
    }
  }

  lemma {:induction false} HighestItem(p: Policy, items: seq<Value>)
    requires items != []
    ensures exists i :: 0 <= i < |items| && Total(p, items[i]).height == ItemTotal(p, items).height
  {
    hide Total;
    assert items[0] == items[0];
    if |items| > 1 {
      HighestItem(p, items[1..]);
      var i :| 0 <= i < |items[1..]| && Total(p, items[1..][i]).height == ItemTotal(p, items[1..]).height;
      assert items[i + 1] == items[1..][i];
    } else {
      assert ItemTotal(p, items[1..]) == ZERO;
      assert Total(p, items[0]).height == ItemTotal(p, items).height;
    }
  }

  lemma {:induction false} HighestField(p: Policy, fields: seq<Field>)
    requires fields != []
    ensures exists i :: 0 <= i < |fields| && Total(p, fields[i].value).height == ValueTotal(p, fields).height
  {
    hide Total;
    assert fields[0] == fields[0];
    if |fields| > 1 {
      HighestField(p, fields[1..]);
      var i :| 0 <= i < |fields[1..]| && Total(p, fields[1..][i].value).height == ValueTotal(p, fields[1..]).height;
      assert fields[i + 1] == fields[1..][i];
    } else {
      assert ValueTotal(p, fields[1..]) == ZERO;
      assert Total(p, fields[0].value).height == ValueTotal(p, fields).height;
    }
  }

  ghost predicate HasPath(v: Value, n: nat)
  {
    exists path :: Sub(v, path).Some? && |path| == n
  }

  lemma PathThrough(v: Value, i: nat, n: nat)
    requires Child(v, i).Some? && HasPath(Child(v, i).value, n)
    ensures HasPath(v, n + 1)
  {
    var path :| Sub(Child(v, i).value, path).Some? && |path| == n;
    SubStep(v, i, path);
    assert |[i] + path| == n + 1;
  }

  /** And some path is that long. */
  lemma {:induction false} LongestPath(p: Policy, v: Value)
    ensures HasPath(v, Total(p, v).height - 1)
    decreases v
  {
    hide HasPath, ItemTotal, ValueTotal, KeyTotal, DistinctKeys;
    match v {
      case Arr(items) =>
        if items != [] {
          HighestItem(p, items);
          var i :| 0 <= i < |items| && Total(p, items[i]).height == ItemTotal(p, items).height;
          LongestPath(p, items[i]);
          PathThrough(v, i, Total(p, items[i]).height - 1);
        } else {
          Rootless(p, v);
        }
      case Obj(fields) =>
        if fields != [] {
          HighestField(p, fields);
          var i :| 0 <= i < |fields| && Total(p, fields[i].value).height == ValueTotal(p, fields).height;
          LongestPath(p, fields[i].value);
          PathThrough(v, i, Total(p, fields[i].value).height - 1);
        } else {
          Rootless(p, v);
        }
      case _ => Rootless(p, v);
    }
  }

  lemma Rootless(p: Policy, v: Value)
    requires match v case Arr(items) => items == [] case Obj(fields) => fields == [] case _ => true
    ensures Total(p, v).height == 1 && HasPath(v, 0)
  {
    assert Sub(v, []).Some?;
  }

  /**
   What admission asks of a tree, without a walk: at most so many nodes and so much key and
   leaf text, no path too long, and every node admissible on its own.
   */
  ghost predicate WithinLimits(p: Policy, v: Value)
  {
    && |Nodes(v)| <= MAX_NODES && TextOf(Nodes(v)) <= MAX_BYTES && AllAdmissible(p, Nodes(v))
    && forall path :: Sub(v, path).Some? ==> |path| + 1 <= MAX_DEPTH
  }

  lemma FitsMeansWithinLimits(p: Policy, v: Value)
    ensures Fits(Total(p, v), 1, 0, 0) <==> WithinLimits(p, v)
  {
    hide Total, Nodes, TextOf, AllAdmissible;
    TotalMeasures(p, v);
    forall path | Sub(v, path).Some? ensures |path| < Total(p, v).height {
      PathsWithin(p, v, path);
    }
    LongestPath(p, v);
  }

  /** Admission accepts exactly the trees within the limits whose canonical text is within the byte cap. */
  lemma AdmitMeans(p: Policy, v: Value)
    ensures Admit(p, v).Some?
            <==> WithinLimits(p, v) && |CanonicalBytes(Replaced(p, v))| <= MAX_BYTES
    ensures Admit(p, v).Some? ==> Admit(p, v).value == CanonicalText(Replaced(p, v))
  {
    hide WithinLimits, Total, Replaced, Ordered, Render, Utf8;
    FitsMeansWithinLimits(p, v);
  }
}
