/**
 The coalescing follow-up document stored on a generation: a window of the last
 sixteen requests, the newest ref, and an intent that full review makes sticky.
 The document is stored as canonical JSON text and read back on every merge.
 */
module PendingFollowUp {
  import opened BoundedJson
  import opened Bytes
  import opened CanonicalJson
  import opened Decimal
  import opened Json
  import opened Wrappers

  const WINDOW := 16

  datatype FollowUpTrigger = Manual | Scheduled | CompatScanApi | Reconciliation | Operator

  datatype ReviewIntent = FullReview | Incremental

  datatype Request = Request(trigger: FollowUpTrigger, requestedRef: string, intent: ReviewIntent, at: int)

  function TriggerName(t: FollowUpTrigger): (s: string)
  {
    match t
    case Manual => "manual"
    case Scheduled => "scheduled"
    case CompatScanApi => "compat_scan_api"
    case Reconciliation => "reconciliation"
    case Operator => "operator"
  }

  function IntentName(i: ReviewIntent): (s: string)
  {
    match i
    case FullReview => "full_review"
    case Incremental => "incremental"
  }

  function TriggerEntry(r: Request): (v: Value)
  {
    Obj([Field("trigger", Str(TriggerName(r.trigger))), Field("ref", Str(r.requestedRef)),
         Field("at", Num(DecInt(r.at))), Field("kind_hint", Str(IntentName(r.intent)))])
  }

  /** Indexing: null for a missing key and for anything that is not an object. */
  function Index(v: Value, key: string): (r: Value)
  {
    if v.Obj? && Lookup(v.fields, key).Some? then Lookup(v.fields, key).value else Null
  }

  function LastWindow<T>(s: seq<T>): (r: seq<T>)
  {
    if |s| > WINDOW then s[|s| - WINDOW..] else s
  }

  function PriorTriggers(prior: Option<Value>): (ts: seq<Value>)
  {
    if prior.Some? && Index(prior.value, "triggers").Arr? then Index(prior.value, "triggers").items else []
  }

  function RetainedIntent(prior: Option<Value>, intent: ReviewIntent): (i: ReviewIntent)
  {
    if prior.Some? && Index(prior.value, "kind_hint") == Str("full_review") then FullReview else intent
  }

  function DocumentFields(triggers: seq<Value>, newest: string, intent: ReviewIntent): (fs: seq<Field>)
  {
    [Field("version", Num("1")), Field("triggers", Arr(triggers)),
     Field("newest_ref", Str(newest)), Field("kind_hint", Str(IntentName(intent)))]
  }

  function Document(prior: Option<Value>, r: Request): (v: Value)
  {
    Obj(DocumentFields(LastWindow(PriorTriggers(prior) + [TriggerEntry(r)]), r.requestedRef,
                       RetainedIntent(prior, r.intent)))
  }

  function Prior(previous: Option<string>): (v: Option<Value>)
  {
    if previous.Some? then Parse(previous.value) else None
  }

  /** One merge: the stored text afterwards, or nothing when admission refuses it. */
  function Merge(p: Policy, previous: Option<string>, r: Request): (text: Option<string>)
  {
    Checked(p, Render(Document(Prior(previous), r)))
  }

  method New(p: Policy, previous: Option<string>, r: Request) returns (text: Option<string>)
    ensures text == Merge(p, previous, r)
  {
    hide Index, Parse, Render, Checked, TriggerEntry, DocumentFields;
    var prior := if previous.Some? then Parse(previous.value) else None;
    var retained := r.intent;
    if prior.Some? && Index(prior.value, "kind_hint") == Str("full_review") {
      retained := FullReview;
    }
    var triggers: seq<Value> := [];
    if prior.Some? && Index(prior.value, "triggers").Arr? {
      triggers := Index(prior.value, "triggers").items;
    }
    triggers := triggers + [TriggerEntry(r)];
    if |triggers| > WINDOW {
      triggers := triggers[|triggers| - WINDOW..];
    }
    text := CheckedParse(p, Render(Obj(DocumentFields(triggers, r.requestedRef, retained))));
  }

  // ---------- Runs ----------

  /** The stored text after a whole run of merges from an empty document, if all were admitted. */
  function Run(p: Policy, rs: seq<Request>): (text: Option<string>)
    requires rs != []
  {
    if |rs| == 1 then Merge(p, None, rs[0])
    else
      var before := Run(p, rs[..|rs| - 1]);
      if before.None? then None else Merge(p, before, rs[|rs| - 1])
  }

  /** The fixed words of the document pass the leaf policy unchanged. */
  ghost predicate KeepsFixedTexts(p: Policy)
  {
    && (forall t :: p.leaf(TriggerName(t)) == Some(TriggerName(t)))
    && (forall i :: p.leaf(IntentName(i)) == Some(IntentName(i)))
  }

  /** A request as the document stores it: text normalized, keys sorted. */
  function StoredEntry(p: Policy, r: Request): (v: Value)
  {
    Ordered(Replaced(p, TriggerEntry(r)))
  }

  function StoredEntries(p: Policy, rs: seq<Request>): (vs: seq<Value>)
    ensures |vs| == |rs| && forall i :: 0 <= i < |rs| ==> vs[i] == StoredEntry(p, rs[i])
  {
    if rs == [] then [] else StoredEntries(p, rs[..|rs| - 1]) + [StoredEntry(p, rs[|rs| - 1])]
  }

  ghost predicate AskedFullReview(rs: seq<Request>)
  {
    exists i :: 0 <= i < |rs| && rs[i].intent == FullReview
  }

  /** The document holds exactly the last window of the run, its newest ref, and the sticky intent. */
  ghost predicate Coalesced(p: Policy, rs: seq<Request>, doc: Value)
    requires rs != []
  {
    var newest := p.leaf(rs[|rs| - 1].requestedRef);
    && Index(doc, "triggers") == Arr(LastWindow(StoredEntries(p, rs)))
    && newest.Some? && Index(doc, "newest_ref") == Str(newest.value)
    && Index(doc, "kind_hint") == Str(IntentName(if AskedFullReview(rs) then FullReview else Incremental))
    && Index(doc, "version") == Num("1")
  }

  /** Sorting an object does not move a value away from its key. */
  lemma IndexOrdered(fields: seq<Field>, i: nat)
    requires DistinctKeys(fields) && i < |fields|
    ensures Index(Ordered(Obj(fields)), fields[i].key) == Ordered(fields[i].value)
  {
    var sorted := OrderFields(fields);
    OrderFieldsMembers(fields);
    OrderFieldsSorted(fields);
    assert OrderField(fields[i]) in sorted;
    var j :| 0 <= j < |sorted| && sorted[j] == OrderField(fields[i]);
    SortedKeysDistinct(sorted);
    LookupFound(sorted, j);
  }

  lemma SortedKeysDistinct(fields: seq<Field>)
    requires StrictlyOrdered(fields, FieldKey)
    ensures DistinctKeys(fields)
  {
    forall i, j | 0 <= i < j < |fields| ensures fields[i].key != fields[j].key {
      LexTotal(FieldKey(fields[i]), FieldKey(fields[j]));
    }
  }

  /** A field of a stored object, read through the sort and the normalization. */
  lemma IndexStored(p: Policy, fields: seq<Field>, i: nat)
    requires DistinctKeys(fields) && i < |fields|
    ensures Index(Ordered(Replaced(p, Obj(fields))), fields[i].key) == Ordered(Replaced(p, fields[i].value))
  {
    hide Index, Ordered;
    var replaced := ReplacedFields(p, fields);
    assert forall k :: 0 <= k < |fields| ==> replaced[k].key == fields[k].key;
    IndexOrdered(replaced, i);
  }

  lemma StoredDocument(p: Policy, triggers: seq<Value>, newest: string, intent: ReviewIntent)
    ensures var doc := Ordered(Replaced(p, Obj(DocumentFields(triggers, newest, intent))));
            && Index(doc, "version") == Num("1")
            && Index(doc, "triggers") == Ordered(Replaced(p, Arr(triggers)))
            && Index(doc, "newest_ref") == Replaced(p, Str(newest))
            && Index(doc, "kind_hint") == Replaced(p, Str(IntentName(intent)))
  {
    hide Index, OrderFields, OrderItems, ReplacedItems, ReplacedFields, IntentName;
    var fields := DocumentFields(triggers, newest, intent);
    IndexStored(p, fields, 0);
    IndexStored(p, fields, 1);
    IndexStored(p, fields, 2);
    IndexStored(p, fields, 3);
  }

  /** A stored document: reading it, normalizing it and sorting it again change nothing. */
  ghost predicate Settled(p: Policy, v: Value)
  {
    Tokens(v) && SortedKeys(v) && Replaced(p, v) == v
  }

  lemma SettledField(p: Policy, fields: seq<Field>, k: nat)
    requires Settled(p, Obj(fields)) && k < |fields|
    ensures Settled(p, fields[k].value)
  {
    assert ReplacedFields(p, fields)[k] == fields[k];
  }

  lemma SettledItem(p: Policy, items: seq<Value>, i: nat)
    requires Settled(p, Arr(items)) && i < |items|
    ensures Settled(p, items[i])
  {
    assert ReplacedItems(p, items)[i] == items[i];
  }

  lemma SettledFixed(p: Policy, v: Value)
    requires Settled(p, v)
    ensures Tokens(v) && Ordered(Replaced(p, v)) == v
  {
    SortedFixed(v);
  }

  lemma SettledTriggers(p: Policy, doc: Value)
    requires Settled(p, doc)
    ensures var ts := PriorTriggers(Some(doc));
            forall i :: 0 <= i < |ts| ==> Tokens(ts[i]) && Ordered(Replaced(p, ts[i])) == ts[i]
  {
    hide Settled, Ordered, Replaced, Tokens;
    if doc.Obj? && Index(doc, "triggers").Arr? {
      LookupHolds(doc.fields, "triggers");
      var k :| 0 <= k < |doc.fields| && doc.fields[k].value == Index(doc, "triggers");
      var ts := doc.fields[k].value.items;
      SettledField(p, doc.fields, k);
      forall i | 0 <= i < |ts| ensures Tokens(ts[i]) && Ordered(Replaced(p, ts[i])) == ts[i] {
        SettledItem(p, ts, i);
        SettledFixed(p, ts[i]);
      }
    }
  }

  lemma DocumentTokens(ts: seq<Value>, r: Request, newest: string, intent: ReviewIntent)
    requires forall i :: 0 <= i < |ts| ==> Tokens(ts[i])
    ensures Tokens(Obj(DocumentFields(LastWindow(ts + [TriggerEntry(r)]), newest, intent)))
  {
    var token := DecInt(r.at);
    assert NumToken(token) by {
      assert r.at < 0 ==> forall i :: 0 < i < |token| ==> token[i] == token[1..][i - 1];
    }
    var entry := TriggerEntry(r);
    assert Tokens(entry) by {
      assert forall i :: 0 <= i < |entry.fields| ==> Tokens(entry.fields[i].value);
    }
    var all := LastWindow(ts + [entry]);
    assert forall i :: 0 <= i < |all| ==> Tokens(all[i]);
    assert Tokens(Arr(all));
    assert NumToken("1");
    var fields := DocumentFields(all, newest, intent);
    assert forall i :: 0 <= i < |fields| ==> Tokens(fields[i].value);
  }

  lemma {:induction false} AdmissibleValue(p: Policy, fields: seq<Field>, i: nat)
    requires ValueTotal(p, fields).admissible && i < |fields|
    ensures Total(p, fields[i].value).admissible
  {
    hide Total;
    if i > 0 {
      assert fields[1..][i - 1] == fields[i];
      AdmissibleValue(p, fields[1..], i - 1);
    }
  }

  /** Admitted document text reads back as the normalized, sorted document. */
  lemma StoredText(p: Policy, doc: Value, text: string)
    requires Idempotent(p) && Tokens(doc) && Checked(p, Render(doc)) == Some(text)
    ensures Parse(text) == Some(Ordered(Replaced(p, doc)))
    ensures Settled(p, Ordered(Replaced(p, doc)))
    ensures Total(p, doc).admissible
  {
    ParseRendered(doc);
    Readmission(p, doc);
  }

  lemma SettledPrior(p: Policy, prior: Option<Value>)
    requires prior.Some? ==> Settled(p, prior.value)
    ensures var ts := PriorTriggers(prior);
            forall i :: 0 <= i < |ts| ==> Tokens(ts[i]) && Ordered(Replaced(p, ts[i])) == ts[i]
  {
    hide Settled;
    if prior.Some? {
      SettledTriggers(p, prior.value);
    }
  }

  lemma AdmittedDocument(p: Policy, triggers: seq<Value>, newest: string, intent: ReviewIntent)
    requires KeepsFixedTexts(p) && Total(p, Obj(DocumentFields(triggers, newest, intent))).admissible
    ensures p.leaf(newest).Some?
    ensures Replaced(p, Str(newest)) == Str(p.leaf(newest).value)
    ensures Replaced(p, Str(IntentName(intent))) == Str(IntentName(intent))
  {
    AdmissibleValue(p, DocumentFields(triggers, newest, intent), 2);
  }

  /** What one admitted merge stores, given what was stored before. */
  ghost predicate Merged(p: Policy, prior: Option<Value>, r: Request, doc: Value)
  {
    && p.leaf(r.requestedRef).Some?
    && Index(doc, "version") == Num("1")
    && Index(doc, "triggers") == Arr(LastWindow(PriorTriggers(prior) + [StoredEntry(p, r)]))
    && Index(doc, "newest_ref") == Str(p.leaf(r.requestedRef).value)
    && Index(doc, "kind_hint") == Str(IntentName(RetainedIntent(prior, r.intent)))
  }

  /** One admitted merge over a settled document. */
  lemma MergeStep(p: Policy, previous: Option<string>, r: Request)
    requires Idempotent(p) && KeepsFixedTexts(p)
    requires Prior(previous).Some? ==> Settled(p, Prior(previous).value)
    requires Merge(p, previous, r).Some?
    ensures var doc := Parse(Merge(p, previous, r).value);
            doc.Some? && Settled(p, doc.value) && Merged(p, Prior(previous), r, doc.value)
  {
    hide Index, Settled, Idempotent, KeepsFixedTexts, Checked, Parse, Ordered, Replaced, Total, Render, DocumentFields;
    var prior := Prior(previous);
    var ts := PriorTriggers(prior);
    SettledPrior(p, prior);
    var intent := RetainedIntent(prior, r.intent);
    var all := LastWindow(ts + [TriggerEntry(r)]);
    DocumentTokens(ts, r, r.requestedRef, intent);
    StoredText(p, Document(prior, r), Merge(p, previous, r).value);
    StoredDocument(p, all, r.requestedRef, intent);
    StoredWindow(p, ts, TriggerEntry(r));
    AdmittedDocument(p, all, r.requestedRef, intent);
  }

  lemma StoredArray(p: Policy, items: seq<Value>)
    ensures Ordered(Replaced(p, Arr(items))) == Arr(OrderItems(ReplacedItems(p, items)))
  {
  }

  lemma StoredWindow(p: Policy, ts: seq<Value>, entry: Value)
    requires forall i :: 0 <= i < |ts| ==> Ordered(Replaced(p, ts[i])) == ts[i]
    ensures Ordered(Replaced(p, Arr(LastWindow(ts + [entry]))))
            == Arr(LastWindow(ts + [Ordered(Replaced(p, entry))]))
  {
    hide Ordered, Replaced, OrderItems, ReplacedItems;
    var all := LastWindow(ts + [entry]);
    var stored := LastWindow(ts + [Ordered(Replaced(p, entry))]);
    forall i | 0 <= i < |all| ensures Ordered(Replaced(p, all[i])) == stored[i] {
      var k := |ts| + 1 - |all| + i;
      assert all[i] == (ts + [entry])[k] && stored[i] == (ts + [Ordered(Replaced(p, entry))])[k];
    }
    assert OrderItems(ReplacedItems(p, all)) == stored;
    StoredArray(p, all);
  }

  lemma StickyIntent(prior: Value, before: ReviewIntent, intent: ReviewIntent)
    requires Index(prior, "kind_hint") == Str(IntentName(before))
    ensures RetainedIntent(Some(prior), intent) == if before == FullReview then FullReview else intent
  {
    assert IntentName(Incremental)[0] != IntentName(FullReview)[0];
  }

  lemma AskedBefore(rs: seq<Request>)
    requires rs != []
    ensures AskedFullReview(rs) <==> AskedFullReview(rs[..|rs| - 1]) || rs[|rs| - 1].intent == FullReview
  {
    var front := rs[..|rs| - 1];
    if AskedFullReview(front) {
      var i :| 0 <= i < |front| && front[i].intent == FullReview;
      assert rs[i].intent == FullReview;
    }
    if AskedFullReview(rs) && rs[|rs| - 1].intent != FullReview {
      var i :| 0 <= i < |rs| && rs[i].intent == FullReview;
      assert front[i].intent == FullReview;
    }
  }

  lemma WindowSlides<T>(s: seq<T>, x: T)
    ensures LastWindow(LastWindow(s) + [x]) == LastWindow(s + [x])
  {
  }

  /** A merge over a coalesced document leaves it coalesced for the longer run. */
  lemma CoalescedStep(p: Policy, rs: seq<Request>, prior: Option<Value>, doc: Value)
    requires rs != []
    requires |rs| == 1 ==> prior == None
    requires |rs| > 1 ==> prior.Some? && Coalesced(p, rs[..|rs| - 1], prior.value)
    requires Merged(p, prior, rs[|rs| - 1], doc)
    ensures Coalesced(p, rs, doc)
  {
    hide Index, StoredEntry;
    var front, r := rs[..|rs| - 1], rs[|rs| - 1];
    AskedBefore(rs);
    assert StoredEntries(p, rs) == StoredEntries(p, front) + [StoredEntry(p, r)];
    if |rs| > 1 {
      WindowSlides(StoredEntries(p, front), StoredEntry(p, r));
      StickyIntent(prior.value, if AskedFullReview(front) then FullReview else Incremental, r.intent);
    } else {
      assert front == [];
    }
  }

  /**
   After any run of admitted merges from an empty document, the document holds
   exactly the last sixteen requests in order, the last ref, and full review
   exactly when some request of the whole run asked for it.
   */
  lemma {:induction false} RunCoalesces(p: Policy, rs: seq<Request>)
    requires Idempotent(p) && KeepsFixedTexts(p)
    requires rs != [] && Run(p, rs).Some?
    ensures var doc := Parse(Run(p, rs).value);
            doc.Some? && Settled(p, doc.value) && Coalesced(p, rs, doc.value)
    decreases |rs|
  {
    hide Settled, Merge, Merged, Coalesced, Parse, Idempotent, KeepsFixedTexts;
    var front, r := rs[..|rs| - 1], rs[|rs| - 1];
    var previous := if |rs| == 1 then None else Run(p, front);
    if |rs| > 1 {
      RunCoalesces(p, front);
    }
    MergeStep(p, previous, r);
    CoalescedStep(p, rs, Prior(previous), Parse(Run(p, rs).value).value);
  }

  // ---------- What the window records ----------

  function TriggerOf(word: string): (r: Option<FollowUpTrigger>)
  {
    if word == "manual" then Some(Manual)
    else if word == "scheduled" then Some(Scheduled)
    else if word == "compat_scan_api" then Some(CompatScanApi)
    else if word == "reconciliation" then Some(Reconciliation)
    else if word == "operator" then Some(Operator)
    else None
  }

  function IntentOf(word: string): (r: Option<ReviewIntent>)
  {
    if word == "full_review" then Some(FullReview) else if word == "incremental" then Some(Incremental) else None
  }

  lemma WordsRead(t: FollowUpTrigger, i: ReviewIntent)
    ensures TriggerOf(TriggerName(t)) == Some(t) && IntentOf(IntentName(i)) == Some(i)
  {
  }

  /** A stored entry spells out one request: trigger, normalized ref, time and intent, each under its key. */
  ghost predicate Records(p: Policy, entry: Value, r: Request)
  {
    && entry.Obj? && |entry.fields| == 4
    && var word, at, hint := Index(entry, "trigger"), Index(entry, "at"), Index(entry, "kind_hint");
    && word.Str? && TriggerOf(word.s) == Some(r.trigger)
    && p.leaf(r.requestedRef).Some? && Index(entry, "ref") == Str(p.leaf(r.requestedRef).value)
    && at.Num? && ReadInt(at.token) == r.at
    && hint.Str? && IntentOf(hint.s) == Some(r.intent)
  }

  lemma StoredEntryRecords(p: Policy, r: Request)
    requires KeepsFixedTexts(p) && p.leaf(r.requestedRef).Some?
    ensures Records(p, StoredEntry(p, r), r)
  {
    hide Index, OrderFields, ReplacedFields, TriggerName, IntentName, DecInt, ReadInt, TriggerOf, IntentOf;
    WordsRead(r.trigger, r.intent);
    DecIntReads(r.at);
    var fields := TriggerEntry(r).fields;
    IndexStored(p, fields, 0);
    IndexStored(p, fields, 1);
    IndexStored(p, fields, 2);
    IndexStored(p, fields, 3);
  }

  lemma {:induction false} RunAdmitsRefs(p: Policy, rs: seq<Request>, k: nat)
    requires Idempotent(p) && KeepsFixedTexts(p)
    requires rs != [] && Run(p, rs).Some? && k < |rs|
    ensures p.leaf(rs[k].requestedRef).Some?
    decreases |rs|
  {
    hide Merge, Parse;
    if k == |rs| - 1 {
      RunCoalesces(p, rs);
    } else {
      RunAdmitsRefs(p, rs[..|rs| - 1], k);
    }
  }

  /** So entry `i` of the stored list records the request that many places into the run's last 16. */
  lemma RunRecordsRequests(p: Policy, rs: seq<Request>, i: nat)
    requires Idempotent(p) && KeepsFixedTexts(p)
    requires rs != [] && Run(p, rs).Some?
    ensures var doc := Parse(Run(p, rs).value);
            && doc.Some? && Index(doc.value, "triggers").Arr?
            && var ts := Index(doc.value, "triggers").items;
            && |ts| == (if |rs| < WINDOW then |rs| else WINDOW)
            && (i < |ts| ==> Records(p, ts[i], rs[|rs| - |ts| + i]))
            && var hint := Index(doc.value, "kind_hint");
            hint.Str? && IntentOf(hint.s) == Some(if AskedFullReview(rs) then FullReview else Incremental)
  {
    hide Parse, Run, Index, StoredEntry, Records, IntentOf, IntentName;
    WordsRead(Manual, if AskedFullReview(rs) then FullReview else Incremental);
    RunCoalesces(p, rs);
    var ts := LastWindow(StoredEntries(p, rs));
    if i < |ts| {
      var k := |rs| - |ts| + i;
      RunAdmitsRefs(p, rs, k);
      StoredEntryRecords(p, rs[k]);
      assert ts[i] == StoredEntries(p, rs)[k];
    }
  }
}
