/**
 Stable retransmission bytes: object keys sorted at every depth, array order and
 number tokens kept.
 */
module CanonicalJson {
  import opened Bytes
  import opened Json
  import opened Wrappers

  function FieldKey(f: Field): (k: seq<u8>)
  {
    Utf8(f.key)
  }

  /** Insertion into a sorted map: before the first larger key. */
  function InsertField(f: Field, sorted: seq<Field>): (r: seq<Field>)
    ensures |r| == |sorted| + 1
    ensures forall x :: x in r <==> x == f || x in sorted
  {
    if sorted == [] then [f]
    else if LexLess(FieldKey(f), FieldKey(sorted[0])) then [f] + sorted
    else
      assert sorted == [sorted[0]] + sorted[1..];
      [sorted[0]] + InsertField(f, sorted[1..])
  }

  function Ordered(v: Value): (r: Value)
    decreases v, 1
  {
    match v
    case Arr(items) => Arr(OrderItems(items))
    case Obj(fields) => Obj(OrderFields(fields))
    case _ => v
  }

  function OrderItems(items: seq<Value>): (r: seq<Value>)
    ensures |r| == |items|
    ensures forall i :: 0 <= i < |items| ==> r[i] == Ordered(items[i])
    decreases items, 0
  {
    if items == [] then [] else [Ordered(items[0])] + OrderItems(items[1..])
  }

  /** The object-ordering decision, applied after ordering each value. */
  function OrderFields(fields: seq<Field>): (r: seq<Field>)
    ensures |r| == |fields|
    decreases fields, 0
  {
    if fields == [] then []
    else InsertField(Field(fields[0].key, Ordered(fields[0].value)), OrderFields(fields[1..]))
  }

  function CanonicalText(v: Value): (r: string)
  {
    Render(Ordered(v))
  }

  function CanonicalBytes(v: Value): (r: seq<u8>)
  {
    Utf8(CanonicalText(v))
  }

  /** Every object in the tree lists its keys in strictly increasing order. */
  ghost predicate SortedKeys(v: Value)
  {
    match v
    case Arr(items) => forall i :: 0 <= i < |items| ==> SortedKeys(items[i])
    case Obj(fields) =>
      StrictlyOrdered(fields, FieldKey) && forall i :: 0 <= i < |fields| ==> SortedKeys(fields[i].value)
    case _ => true
  }

  /** Equal trees, except that objects may list their fields in another order. */
  ghost predicate Same(v: Value, w: Value)
    decreases v
  {
    match v
    case Arr(items) =>
      w.Arr? && |items| == |w.items| && forall i :: 0 <= i < |items| ==> Same(items[i], w.items[i])
    case Obj(fields) =>
      && w.Obj?
      && (forall i :: 0 <= i < |fields| ==> Matched(fields[i], w.fields))
      && (forall j :: 0 <= j < |w.fields| ==> HasKey(fields, w.fields[j].key))
    case _ => v == w
  }

  ghost predicate HasKey(fields: seq<Field>, key: string)
  {
    exists i :: 0 <= i < |fields| && fields[i].key == key
  }

  ghost predicate Matched(f: Field, others: seq<Field>)
    decreases f
  {
    exists j :: 0 <= j < |others| && others[j].key == f.key && Same(f.value, others[j].value)
  }

  // ---------- Ordering facts ----------

  lemma {:induction false} InsertKeepsOrder(f: Field, sorted: seq<Field>)
    requires StrictlyOrdered(sorted, FieldKey)
    requires forall x :: x in sorted ==> x.key != f.key
    ensures StrictlyOrdered(InsertField(f, sorted), FieldKey)
  {
    hide LexLess, FieldKey;
    var r := InsertField(f, sorted);
    if sorted != [] {
      var head := sorted[0];
      if LexLess(FieldKey(f), FieldKey(head)) {
        forall i, j | 0 <= i < j < |r| ensures LexLess(FieldKey(r[i]), FieldKey(r[j])) {
          if i == 0 && j > 1 {
            LexTransitive(FieldKey(f), FieldKey(head), FieldKey(sorted[j - 1]));
          }
        }
      } else {
        KeysDiffer(f, head);
        var rest := InsertField(f, sorted[1..]);
        InsertKeepsOrder(f, sorted[1..]);
        forall j | 0 < j < |r| ensures LexLess(FieldKey(head), FieldKey(r[j])) {
          assert r[j] in rest;
        }
        forall i, j | 0 <= i < j < |r| ensures LexLess(FieldKey(r[i]), FieldKey(r[j])) {
          if i > 0 {
            assert r[i] == rest[i - 1] && r[j] == rest[j - 1];
          }
        }
      }
    }
  }

  lemma KeysDiffer(f: Field, g: Field)
    requires f.key != g.key
    ensures LexLess(FieldKey(f), FieldKey(g)) || LexLess(FieldKey(g), FieldKey(f))
  {
    if FieldKey(f) == FieldKey(g) {
      Utf8Injective(f.key, g.key);
    }
    LexTotal(FieldKey(f), FieldKey(g));
  }

  /** A field with its value ordered. */
  function OrderField(f: Field): (r: Field)
  {
    Field(f.key, Ordered(f.value))
  }

  lemma {:induction false} OrderFieldsMembers(fields: seq<Field>)
    ensures forall i :: 0 <= i < |fields| ==> OrderField(fields[i]) in OrderFields(fields)
    ensures forall x :: x in OrderFields(fields) ==> exists i :: 0 <= i < |fields| && x == OrderField(fields[i])
  {
    if fields != [] {
      OrderFieldsMembers(fields[1..]);
      forall x | x in OrderFields(fields) ensures exists i :: 0 <= i < |fields| && x == OrderField(fields[i]) {
        if x == OrderField(fields[0]) {
        } else {
          var i :| 0 <= i < |fields[1..]| && x == OrderField(fields[1..][i]);
          assert x == OrderField(fields[i + 1]);
        }
      }
      forall i | 0 <= i < |fields| ensures OrderField(fields[i]) in OrderFields(fields) {
        if i > 0 {
          assert fields[i] == fields[1..][i - 1];
        }
      }
    }
  }

  lemma {:induction false} OrderFieldsSorted(fields: seq<Field>)
    requires DistinctKeys(fields)
    ensures StrictlyOrdered(OrderFields(fields), FieldKey)
  {
    if fields != [] {
      OrderFieldsSorted(fields[1..]);
      OrderFieldsMembers(fields[1..]);
      InsertKeepsOrder(OrderField(fields[0]), OrderFields(fields[1..]));
    }
  }

  /** Ordering a map sorts it at every depth and keeps its tokens. */
  lemma {:induction false} OrderedIsSorted(v: Value)
    requires Distinct(v)
    ensures SortedKeys(Ordered(v))
    ensures Tokens(v) ==> Tokens(Ordered(v))
    decreases v
  {
    match v {
      case Arr(items) =>
        forall i | 0 <= i < |items|
          ensures SortedKeys(Ordered(items[i])) && (Tokens(v) ==> Tokens(Ordered(items[i])))
        {
          OrderedIsSorted(items[i]);
        }
      case Obj(fields) =>
        OrderFieldsSorted(fields);
        OrderFieldsMembers(fields);
        var r := OrderFields(fields);
        forall k | 0 <= k < |r|
          ensures SortedKeys(r[k].value) && (Tokens(v) ==> Tokens(r[k].value))
        {
          assert r[k] in r;
          var i :| 0 <= i < |fields| && r[k] == OrderField(fields[i]);
          OrderedIsSorted(fields[i].value);
        }
      case _ =>
    }
  }

  lemma {:induction false} SortedIsDistinct(v: Value)
    requires SortedKeys(v)
    ensures Distinct(v)
    decreases v
  {
    match v {
      case Arr(items) =>
        forall i | 0 <= i < |items| ensures Distinct(items[i]) { SortedIsDistinct(items[i]); }
      case Obj(fields) =>
        forall i, j | 0 <= i < j < |fields| ensures fields[i].key != fields[j].key {
          LexTotal(FieldKey(fields[i]), FieldKey(fields[j]));
        }
        forall i | 0 <= i < |fields| ensures Distinct(fields[i].value) { SortedIsDistinct(fields[i].value); }
      case _ =>
    }
  }

  /** Ordering does not change a tree up to field order. */
  lemma {:induction false} OrderedIsSame(v: Value)
    ensures Same(v, Ordered(v))
    decreases v
  {
    match v {
      case Arr(items) =>
        forall i | 0 <= i < |items| ensures Same(items[i], Ordered(items[i])) { OrderedIsSame(items[i]); }
      case Obj(fields) =>
        OrderFieldsMembers(fields);
        var r := OrderFields(fields);
        forall i | 0 <= i < |fields| ensures Matched(fields[i], r) {
          OrderedIsSame(fields[i].value);
          assert OrderField(fields[i]) in r;
        }
        forall j | 0 <= j < |r| ensures HasKey(fields, r[j].key) {
          assert r[j] in r;
        }
      case _ =>
    }
  }

  /** Two maps order to the same tree exactly when they are equal up to field order. */
  lemma {:induction false} OrderedIffSame(v: Value, w: Value)
    requires Distinct(v) && Distinct(w)
    ensures Ordered(v) == Ordered(w) <==> Same(v, w)
    decreases v
  {
    match v {
      case Arr(items) =>
        if w.Arr? && |items| == |w.items| {
          forall i | 0 <= i < |items|
            ensures Ordered(items[i]) == Ordered(w.items[i]) <==> Same(items[i], w.items[i])
          {
            OrderedIffSame(items[i], w.items[i]);
          }
          if Ordered(v) == Ordered(w) {
            forall i | 0 <= i < |items| ensures Same(items[i], w.items[i]) {
              assert OrderItems(items)[i] == OrderItems(w.items)[i];
            }
          }
        } else if w.Arr? {
          assert |OrderItems(items)| != |OrderItems(w.items)|;
        }
      case Obj(fields) =>
        if w.Obj? {
          if Same(v, w) { SameObjectsOrder(v, w); }
          if Ordered(v) == Ordered(w) { OrderedObjectsSame(v, w); }
        }
      case _ =>
    }
  }

  lemma {:induction false} SameObjectsOrder(v: Value, w: Value)
    requires v.Obj? && w.Obj? && Distinct(v) && Distinct(w) && Same(v, w)
    ensures Ordered(v) == Ordered(w)
    decreases v, 0
  {
    var fs, gs := v.fields, w.fields;
    var a, b := OrderFields(fs), OrderFields(gs);
    OrderFieldsMembers(fs);
    OrderFieldsMembers(gs);
    OrderFieldsSorted(fs);
    OrderFieldsSorted(gs);
    forall i | 0 <= i < |fs| ensures OrderField(fs[i]) in b {
      assert Matched(fs[i], gs);
      var j :| 0 <= j < |gs| && gs[j].key == fs[i].key && Same(fs[i].value, gs[j].value);
      OrderedIffSame(fs[i].value, gs[j].value);
      assert OrderField(fs[i]) == OrderField(gs[j]);
    }
    forall j | 0 <= j < |gs| ensures OrderField(gs[j]) in a {
      assert HasKey(fs, gs[j].key);
      var i :| 0 <= i < |fs| && fs[i].key == gs[j].key;
      assert Matched(fs[i], gs);
      var k :| 0 <= k < |gs| && gs[k].key == fs[i].key && Same(fs[i].value, gs[k].value);
      assert k == j;
      OrderedIffSame(fs[i].value, gs[j].value);
      assert OrderField(fs[i]) == OrderField(gs[j]);
    }
    StrictOrderIsUnique(a, b, FieldKey);
  }

  lemma {:induction false} OrderedObjectsSame(v: Value, w: Value)
    requires v.Obj? && w.Obj? && Distinct(v) && Distinct(w) && Ordered(v) == Ordered(w)
    ensures Same(v, w)
    decreases v, 0
  {
    hide Distinct, OrderFields, OrderField, Matched, HasKey;
    var fs, gs := v.fields, w.fields;
    OrderFieldsMembers(fs);
    forall i | 0 <= i < |fs| ensures Matched(fs[i], gs) {
      assert OrderField(fs[i]) in OrderFields(gs);
      OrderedFieldMatched(fs[i], v, w);
    }
    forall j | 0 <= j < |gs| ensures HasKey(fs, gs[j].key) {
      OrderFieldsMembers(gs);
      assert OrderField(gs[j]) in OrderFields(fs);
      var i :| 0 <= i < |fs| && OrderField(gs[j]) == OrderField(fs[i]);
      assert HasKey(fs, gs[j].key) by {
        SameOrderFieldKey(gs[j], fs[i]);
        HasKeyAt(fs, i);
      }
    }
  }

  lemma HasKeyAt(fields: seq<Field>, i: nat)
    requires i < |fields|
    ensures HasKey(fields, fields[i].key)
  {
  }

  lemma SameOrderFieldKey(f: Field, g: Field)
    requires OrderField(f) == OrderField(g)
    ensures f.key == g.key && Ordered(f.value) == Ordered(g.value)
  {
  }

  lemma {:induction false} OrderedFieldMatched(f: Field, v: Value, w: Value)
    requires v.Obj? && w.Obj? && f in v.fields && Distinct(v) && Distinct(w)
    requires OrderField(f) in OrderFields(w.fields)
    ensures Matched(f, w.fields)
    decreases f
  {
    var gs := w.fields;
    OrderFieldsMembers(gs);
    var j :| 0 <= j < |gs| && OrderField(f) == OrderField(gs[j]);
    SameOrderFieldKey(f, gs[j]);
    OrderedIffSame(f.value, gs[j].value);
  }

  /** Ordering leaves an already sorted tree alone. */
  lemma {:induction false} SortedFixed(v: Value)
    requires SortedKeys(v)
    ensures Ordered(v) == v
    decreases v
  {
    match v {
      case Arr(items) =>
        forall i | 0 <= i < |items| ensures Ordered(items[i]) == items[i] { SortedFixed(items[i]); }
        assert OrderItems(items) == items;
      case Obj(fields) =>
        forall i | 0 <= i < |fields| ensures OrderField(fields[i]) == fields[i] { SortedFixed(fields[i].value); }
        SortedIsDistinct(v);
        OrderFieldsMembers(fields);
        OrderFieldsSorted(fields);
        StrictOrderIsUnique(OrderFields(fields), fields, FieldKey);
      case _ =>
    }
  }

  // ---------- Main results ----------

  /** Reading the canonical text gives the tree back with its fields sorted at every depth. */
  lemma ParseCanonical(v: Value)
    requires Distinct(v) && Tokens(v)
    ensures Parse(CanonicalText(v)) == Some(Ordered(v))
    ensures Same(v, Ordered(v)) && SortedKeys(Ordered(v))
    ensures CanonicalBytes(Ordered(v)) == CanonicalBytes(v)
  {
    OrderedIsSorted(v);
    OrderedIsSame(v);
    ParseRendered(Ordered(v));
    SortedFixed(Ordered(v));
  }

  /** No text that reads as the sorted tree is shorter: no optional escape, no white space. */
  lemma CanonicalIsShortest(v: Value, t: string)
    requires Parse(t) == Some(Ordered(v))
    ensures |CanonicalText(v)| <= |t|
  {
    RenderedIsShortest(Ordered(v), t);
  }

  /** Two maps have the same canonical bytes exactly when they are equal up to field order. */
  lemma CanonicalIdentity(v: Value, w: Value)
    requires Distinct(v) && Tokens(v) && Distinct(w) && Tokens(w)
    ensures CanonicalBytes(v) == CanonicalBytes(w) <==> Same(v, w)
  {
    if CanonicalBytes(v) == CanonicalBytes(w) {
      Utf8Injective(CanonicalText(v), CanonicalText(w));
      ParseCanonical(v);
      ParseCanonical(w);
    }
    OrderedIffSame(v, w);
  }
}
