/** Merging snapshots of what is settled about a trip (frontend/governance-progress.js). */
module GovernanceProgress {
  import opened Text
  import opened FirstSeen

  datatype Fact = Fact(key: string, caption: string, value: Option<string>)

  /** An entry of a preference or to-do list: a text, or a record with its JSON text. */
  datatype Item = PlainText(text: string) | Record(key: string, caption: string, value: string, json: string)

  /** `None` is a field that the snapshot does not have. */
  datatype Snapshot = Snapshot(
    version: Option<string>, mode: Option<string>, workflow: Option<string>, step: Option<string>,
    facts: Option<seq<Fact>>, longTerm: Option<seq<Item>>, currentTrip: Option<seq<Item>>, pending: Option<seq<Item>>)

  const EMPTY := Snapshot(None, None, None, None, None, None, None, None)

  function Value(t: Option<string>): (s: string) {
    if t.Some? then t.value else ""
  }

  function List<T>(s: Option<seq<T>>): (r: seq<T>) {
    if s.Some? then s.value else []
  }

  predicate IsConfirmedPlanningMode(value: string) {
    Trim(value) in ["agency_plan", "free_planning"]
  }

  // ---------- Facts: the last value of every key, in the order the keys came up ----------

  /** The key of a fact, or nothing if the fact is to be skipped. */
  function FactKey(f: Fact): (key: string) {
    if Value(f.value) == "" then "" else Trim(Or(f.key, f.caption))
  }

  function KeyTexts(facts: seq<Fact>): (keys: seq<string>) {
    if facts == [] then [] else KeyTexts(facts[..|facts| - 1]) + [FactKey(facts[|facts| - 1])]
  }

  function FactKeys(facts: seq<Fact>): (keys: seq<string>) {
    FirstBy(SameText, KeyTexts(facts))
  }

  function LastFact(facts: seq<Fact>, key: string): (f: Option<Fact>) {
    if facts == [] then None
    else if FactKey(facts[|facts| - 1]) == key then Some(facts[|facts| - 1])
    else LastFact(facts[..|facts| - 1], key)
  }

  /** The last fact for each key. */
  function FactsFor(keys: seq<string>, facts: seq<Fact>): (r: seq<Fact>) {
    if keys == [] then []
    else
      var rest := FactsFor(keys[..|keys| - 1], facts);
      match LastFact(facts, keys[|keys| - 1])
      case None => rest
      case Some(f) => rest + [f]
  }

  function MergedFacts(facts: seq<Fact>): (r: seq<Fact>) {
    FactsFor(FactKeys(facts), facts)
  }

  method MergeProgressFactItems(previous: seq<Fact>, incoming: seq<Fact>) returns (merged: seq<Fact>)
    ensures merged == MergedFacts(previous + incoming)
  {
    var byKey: map<string, Fact> := map[];
    var order: seq<string> := [];
    var all := previous + incoming;
    for n := 0 to |all|
      invariant order == FactKeys(all[..n])
      invariant Indexed(byKey, all[..n])
    {
      var item := all[n];
      var key := Trim(Or(item.key, item.caption));
      assert all[..n + 1] == all[..n] + [item];
      MoreFacts(all[..n], item);
      if key == "" || Value(item.value) == "" {
        SkippedFact(byKey, all[..n], item);
        continue;
      }
      IndexedMore(byKey, all[..n], item);
      if key !in byKey {
        order := order + [key];
      }
      byKey := byKey[key := item];
    }
    assert all[..|all|] == all;
    merged := InOrder(byKey, order, all);
  }

  /** `order.map((key) => byKey.get(key))`. */
  method InOrder(byKey: map<string, Fact>, order: seq<string>, ghost facts: seq<Fact>) returns (merged: seq<Fact>)
    requires order == FactKeys(facts)
    requires Indexed(byKey, facts)
    ensures merged == FactsFor(order, facts)
  {
    FirstByDistinct(SameText, KeyTexts(facts));
    merged := [];
    for n := 0 to |order|
      invariant merged == FactsFor(order[..n], facts)
    {
      assert order[..n + 1][..n] == order[..n];
      assert SameText(order[n]) == order[n] != "";
      KnownKey(facts, order[n]);
      assert Lookup(byKey, order[n]) == LastFact(facts, order[n]);
      merged := merged + [byKey[order[n]]];
    }
    assert order[..|order|] == order;
  }

  function Lookup(byKey: map<string, Fact>, key: string): (f: Option<Fact>) {
    if key in byKey then Some(byKey[key]) else None
  }

  /** The map holds the last fact of every key. */
  ghost predicate Indexed(byKey: map<string, Fact>, facts: seq<Fact>) {
    forall key | key != "" :: Lookup(byKey, key) == LastFact(facts, key)
  }

  lemma IndexedMore(byKey: map<string, Fact>, facts: seq<Fact>, item: Fact)
    requires Indexed(byKey, facts) && FactKey(item) != ""
    ensures Indexed(byKey[FactKey(item) := item], facts + [item])
    ensures FactKey(item) in byKey <==> HasKey(SameText, KeyTexts(facts), FactKey(item))
  {
    MoreFacts(facts, item);
    KnownKey(facts, FactKey(item));
  }

  lemma SkippedFact(byKey: map<string, Fact>, facts: seq<Fact>, item: Fact)
    requires Indexed(byKey, facts) && FactKey(item) == ""
    ensures Indexed(byKey, facts + [item]) && FactKeys(facts + [item]) == FactKeys(facts)
  {
    MoreFacts(facts, item);
    assert FactKeys(facts) + [] == FactKeys(facts);
  }

  lemma MoreFacts(facts: seq<Fact>, item: Fact)
    ensures FactKeys(facts + [item]) ==
      FactKeys(facts) + if FactKey(item) == "" || HasKey(SameText, KeyTexts(facts), FactKey(item)) then [] else [FactKey(item)]
    ensures forall key :: LastFact(facts + [item], key) == if FactKey(item) == key then Some(item) else LastFact(facts, key)
  {}

  /** A key has a last fact exactly if it came up. */
  lemma {:induction false} KnownKey(facts: seq<Fact>, key: string)
    requires key != ""
    ensures LastFact(facts, key).Some? <==> HasKey(SameText, KeyTexts(facts), key)
    ensures LastFact(facts, key).Some? <==> HasKey(SameText, FactKeys(facts), key)
    ensures LastFact(facts, key).Some? ==> FactKey(LastFact(facts, key).value) == key
  {
    FirstByKeepsKeys(SameText, KeyTexts(facts), key);
    if facts != [] {
      var last := |facts| - 1;
      KnownKey(facts[..last], key);
      HasKeyAppend(SameText, KeyTexts(facts[..last]), [FactKey(facts[last])], key);
      HasKeyOne(SameText, FactKey(facts[last]), key);
    }
  }

  lemma {:induction false} KeyTextsAppend(a: seq<Fact>, b: seq<Fact>)
    ensures KeyTexts(a + b) == KeyTexts(a) + KeyTexts(b)
    decreases |b|
  {
    if b == [] {
      assert a + b == a;
    } else {
      assert (a + b)[..|a + b| - 1] == a + b[..|b| - 1];
      KeyTextsAppend(a, b[..|b| - 1]);
    }
  }

  lemma {:induction false} LastFactAppend(a: seq<Fact>, b: seq<Fact>, key: string)
    ensures LastFact(a + b, key) == if LastFact(b, key).Some? then LastFact(b, key) else LastFact(a, key)
    decreases |b|
  {
    if b == [] {
      assert a + b == a;
    } else {
      assert (a + b)[..|a + b| - 1] == a + b[..|b| - 1];
      LastFactAppend(a, b[..|b| - 1], key);
    }
  }

  /** `merged` has exactly these keys, each with its last fact. */
  ghost predicate Carries(merged: seq<Fact>, keys: seq<string>, facts: seq<Fact>) {
    && KeyTexts(merged) == keys
    && forall key | key != "" :: LastFact(merged, key) == if HasKey(SameText, keys, key) then LastFact(facts, key) else None
  }

  lemma CarriesMore(merged: seq<Fact>, keys: seq<string>, facts: seq<Fact>, key: string)
    requires Carries(merged, keys, facts) && key != "" && LastFact(facts, key).Some?
    ensures Carries(merged + [LastFact(facts, key).value], keys + [key], facts)
  {
    var f := LastFact(facts, key).value;
    KnownKey(facts, key);
    assert (merged + [f])[..|merged|] == merged;
    forall k | k != ""
      ensures LastFact(merged + [f], k) == if HasKey(SameText, keys + [key], k) then LastFact(facts, k) else None
    {
      HasKeyAppend(SameText, keys, [key], k);
      HasKeyOne(SameText, key, k);
    }
  }

  /** Every one of these keys has a last fact. */
  predicate AllKnown(keys: seq<string>, facts: seq<Fact>) {
    forall i | 0 <= i < |keys| :: LastFact(facts, keys[i]).Some?
  }

  lemma FrontIsKnown(keys: seq<string>, facts: seq<Fact>)
    requires AllKnown(keys, facts) && keys != []
    ensures AllKnown(keys[..|keys| - 1], facts) && LastFact(facts, keys[|keys| - 1]).Some?
  {}

  /** Merged facts carry the same keys in the same order, with the same last facts. */
  lemma {:induction false} FactsForKeys(keys: seq<string>, facts: seq<Fact>)
    requires KeysDistinct(SameText, keys)
    requires AllKnown(keys, facts)
    ensures Carries(FactsFor(keys, facts), keys, facts)
  {
    if keys != [] {
      var front, key := keys[..|keys| - 1], keys[|keys| - 1];
      LastKeyIsNew(SameText, keys);
      FrontIsKnown(keys, facts);
      FactsForKeys(front, facts);
      CarriesMore(FactsFor(front, facts), front, facts, key);
      FactsForStep(front, key, facts);
      assert keys == front + [key];
    }
  }

  lemma FactsForStep(keys: seq<string>, key: string, facts: seq<Fact>)
    requires LastFact(facts, key).Some?
    ensures FactsFor(keys + [key], facts) == FactsFor(keys, facts) + [LastFact(facts, key).value]
  {
    assert (keys + [key])[..|keys|] == keys;
  }

  lemma MergedFactsKeep(facts: seq<Fact>)
    ensures KeyTexts(MergedFacts(facts)) == FactKeys(facts)
    ensures forall key | key != "" :: LastFact(MergedFacts(facts), key) == LastFact(facts, key)
  {
    var keys := FactKeys(facts);
    FirstByDistinct(SameText, KeyTexts(facts));
    forall i | 0 <= i < |keys|
      ensures LastFact(facts, keys[i]).Some?
    {
      assert SameText(keys[i]) == keys[i] != "";
      KnownKey(facts, keys[i]);
    }
    FactsForKeys(keys, facts);
    forall key | key != ""
      ensures LastFact(MergedFacts(facts), key) == LastFact(facts, key)
    {
      KnownKey(facts, key);
    }
  }

  lemma {:induction false} FactsForSame(keys: seq<string>, s: seq<Fact>, t: seq<Fact>)
    requires forall i | 0 <= i < |keys| :: keys[i] != ""
    requires forall key | key != "" :: LastFact(s, key) == LastFact(t, key)
    ensures FactsFor(keys, s) == FactsFor(keys, t)
  {
    if keys != [] {
      FactsForSame(keys[..|keys| - 1], s, t);
    }
  }

  /** Merging may be done piece by piece, from either side. */
  lemma MergedFactsSplit(a: seq<Fact>, b: seq<Fact>)
    ensures MergedFacts(MergedFacts(a) + b) == MergedFacts(a + b)
    ensures MergedFacts(a + MergedFacts(b)) == MergedFacts(a + b)
  {
    MergedFactsKeep(a);
    MergedFactsKeep(b);
    KeyTextsAppend(MergedFacts(a), b);
    KeyTextsAppend(a, MergedFacts(b));
    KeyTextsAppend(a, b);
    FirstBySplit(SameText, KeyTexts(a), KeyTexts(b));
    FirstBySplitRight(SameText, KeyTexts(a), KeyTexts(b));
    SameLastFacts(a, b);
    FirstByDistinct(SameText, KeyTexts(a + b));
    assert forall i | 0 <= i < |FactKeys(a + b)| :: SameText(FactKeys(a + b)[i]) != "";
    FactsForSame(FactKeys(a + b), MergedFacts(a) + b, a + b);
    FactsForSame(FactKeys(a + b), a + MergedFacts(b), a + b);
  }

  lemma SameLastFacts(a: seq<Fact>, b: seq<Fact>)
    ensures forall key | key != "" :: LastFact(MergedFacts(a) + b, key) == LastFact(a + b, key)
    ensures forall key | key != "" :: LastFact(a + MergedFacts(b), key) == LastFact(a + b, key)
  {
    MergedFactsKeep(a);
    MergedFactsKeep(b);
    forall key | key != ""
      ensures LastFact(MergedFacts(a) + b, key) == LastFact(a + b, key)
      ensures LastFact(a + MergedFacts(b), key) == LastFact(a + b, key)
    {
      LastFactAppend(MergedFacts(a), b, key);
      LastFactAppend(a, MergedFacts(b), key);
      LastFactAppend(a, b, key);
    }
  }

  // ---------- What merged facts are ----------

  /** A fact that counts says something, under its key or else under its caption. */
  predicate IsUsable(f: Fact, key: string) {
    && key != "" && f.value.Some? && f.value.value != ""
    && key == Trim(if f.key != "" then f.key else f.caption)
  }

  lemma UsableIff(f: Fact, key: string)
    requires key != ""
    ensures FactKey(f) == key <==> IsUsable(f, key)
  {}

  /** The last usable fact for a key is merged; there is no other one with this key. */
  lemma LastUsableIsMerged(facts: seq<Fact>, i: nat, key: string)
    requires i < |facts| && IsUsable(facts[i], key) && forall j | i < j < |facts| :: !IsUsable(facts[j], key)
    ensures facts[i] in MergedFacts(facts)
    ensures forall f | f in MergedFacts(facts) && IsUsable(f, key) :: f == facts[i]
  {
    LastFactIs(facts, i, key);
    MergedFactsKeep(facts);
    FirstByDistinct(SameText, KeyTexts(facts));
    LastFactIn(MergedFacts(facts), key);
    forall f | f in MergedFacts(facts) && IsUsable(f, key)
      ensures f == facts[i]
    {
      OnlyFact(MergedFacts(facts), f, key);
    }
  }

  lemma {:induction false} LastFactIs(facts: seq<Fact>, i: nat, key: string)
    requires i < |facts| && IsUsable(facts[i], key) && forall j | i < j < |facts| :: !IsUsable(facts[j], key)
    ensures LastFact(facts, key) == Some(facts[i])
  {
    var last := |facts| - 1;
    UsableIff(facts[last], key);
    if i < last {
      LastFactIs(facts[..last], i, key);
    }
  }

  lemma {:induction false} LastFactIn(facts: seq<Fact>, key: string)
    ensures LastFact(facts, key).Some? ==> LastFact(facts, key).value in facts
  {
    if facts != [] {
      LastFactIn(facts[..|facts| - 1], key);
    }
  }

  /** Where the keys differ, a fact with a key is the last one with it. */
  lemma {:induction false} OnlyFact(facts: seq<Fact>, f: Fact, key: string)
    requires KeysDistinct(SameText, KeyTexts(facts)) && f in facts && IsUsable(f, key)
    ensures LastFact(facts, key) == Some(f)
  {
    var front, last := facts[..|facts| - 1], facts[|facts| - 1];
    UsableIff(f, key);
    LastKeyIsNew(SameText, KeyTexts(facts));
    assert KeyTexts(facts)[..|KeyTexts(facts)| - 1] == KeyTexts(front);
    if f != last {
      assert f in front;
      OnlyFact(front, f, key);
      KnownKey(front, key);
    }
  }

  // ---------- Lists: every entry once, in the order they came up ----------

  function Marker(item: Item): (marker: string) {
    match item
    case PlainText(text) => text
    case Record(key, caption, value, json) => Or(key, Or(caption, Or(value, json)))
  }

  /** What an entry goes by: a text by itself, a record by the first of key, caption, value and JSON text that it has. */
  lemma MarkerIs(item: Item)
    ensures match item
      case PlainText(text) => Marker(item) == text
      case Record(key, caption, value, json) =>
        && (key != "" ==> Marker(item) == key)
        && (key == "" && caption != "" ==> Marker(item) == caption)
        && (key == "" && caption == "" && value != "" ==> Marker(item) == value)
        && (key == "" && caption == "" && value == "" ==> Marker(item) == json)
  {}

  method MergeProgressStringItems(previous: seq<Item>, incoming: seq<Item>) returns (merged: seq<Item>)
    ensures merged == FirstBy(Marker, previous + incoming)
  {
    var all := previous + incoming;
    var seen: set<string> := {};
    merged := [];
    for n := 0 to |all|
      invariant merged == FirstBy(Marker, all[..n])
      invariant forall marker | marker != "" :: marker in seen <==> HasKey(Marker, all[..n], marker)
    {
      var item := all[n];
      var marker := Marker(item);
      assert all[..n + 1] == all[..n] + [item];
      FirstByStep(Marker, all[..n], item);
      SeenMore(all[..n], item);
      if marker == "" || marker in seen {
        continue;
      }
      seen := seen + {marker};
      merged := merged + [item];
    }
    assert all[..|all|] == all;
  }

  lemma SeenMore(items: seq<Item>, item: Item)
    ensures forall marker :: HasKey(Marker, items + [item], marker) <==> HasKey(Marker, items, marker) || Marker(item) == marker
  {
    forall marker
      ensures HasKey(Marker, items + [item], marker) <==> HasKey(Marker, items, marker) || Marker(item) == marker
    {
      HasKeyAppend(Marker, items, [item], marker);
      HasKeyOne(Marker, item, marker);
    }
  }

  // ---------- Snapshots ----------

  /** `{ ...previous, ...incoming }` for one field. */
  function Over<T>(previous: Option<T>, incoming: Option<T>): (r: Option<T>) {
    if incoming.Some? then incoming else previous
  }

  /** A confirmed mode gives way to another confirmed mode only. */
  function MergedMode(previous: Option<string>, incoming: Option<string>): (r: Option<string>) {
    if IsConfirmedPlanningMode(Value(previous)) && !IsConfirmedPlanningMode(Value(incoming)) then previous
    else Over(previous, incoming)
  }

  function MergedStep(previous: Option<string>, incoming: Option<string>): (r: Option<string>) {
    if Value(previous) != "" && Value(incoming) == "" then previous else Over(previous, incoming)
  }

  function MergedFactsField(previous: Option<seq<Fact>>, incoming: Option<seq<Fact>>): (r: Option<seq<Fact>>) {
    var facts := MergedFacts(List(previous) + List(incoming));
    if facts != [] then Some(facts) else Over(previous, incoming)
  }

  function MergedList(previous: Option<seq<Item>>, incoming: Option<seq<Item>>): (r: Option<seq<Item>>) {
    var items := FirstBy(Marker, List(previous) + List(incoming));
    if items != [] then Some(items) else Over(previous, incoming)
  }

  function Merged(p: Snapshot, i: Snapshot): (r: Snapshot) {
    if p == EMPTY then i
    else if i == EMPTY then p
    else
      Snapshot(Over(p.version, i.version), MergedMode(p.mode, i.mode), MergedMode(p.workflow, i.workflow),
               MergedStep(p.step, i.step), MergedFactsField(p.facts, i.facts), MergedList(p.longTerm, i.longTerm),
               MergedList(p.currentTrip, i.currentTrip), MergedList(p.pending, i.pending))
  }

  method MergeModeField(previous: Option<string>, incoming: Option<string>) returns (merged: Option<string>)
    ensures merged == MergedMode(previous, incoming)
  {
    merged := Over(previous, incoming);
    if IsConfirmedPlanningMode(Value(previous)) && !IsConfirmedPlanningMode(Value(incoming)) {
      merged := previous;
    }
  }

  method MergeFactsField(previous: Option<seq<Fact>>, incoming: Option<seq<Fact>>) returns (merged: Option<seq<Fact>>)
    ensures merged == MergedFactsField(previous, incoming)
  {
    merged := Over(previous, incoming);
    var facts := MergeProgressFactItems(List(previous), List(incoming));
    if facts != [] {
      merged := Some(facts);
    }
  }

  /** One turn of the loop over the three lists. */
  method MergeListField(previous: Option<seq<Item>>, incoming: Option<seq<Item>>) returns (merged: Option<seq<Item>>)
    ensures merged == MergedList(previous, incoming)
  {
    merged := Over(previous, incoming);
    var values := MergeProgressStringItems(List(previous), List(incoming));
    if values != [] {
      merged := Some(values);
    }
  }

  method MergeGovernanceProgressSnapshots(previous: Snapshot, incoming: Snapshot) returns (merged: Snapshot)
    ensures merged == Merged(previous, incoming)
  {
    if previous == EMPTY {
      return incoming;
    }
    if incoming == EMPTY {
      return previous;
    }
    var mode := MergeModeField(previous.mode, incoming.mode);
    var workflow := MergeModeField(previous.workflow, incoming.workflow);
    var step := Over(previous.step, incoming.step);
    if Value(previous.step) != "" && Value(incoming.step) == "" {
      step := previous.step;
    }
    var facts := MergeFactsField(previous.facts, incoming.facts);
    var longTerm := MergeListField(previous.longTerm, incoming.longTerm);
    var currentTrip := MergeListField(previous.currentTrip, incoming.currentTrip);
    var pending := MergeListField(previous.pending, incoming.pending);
    merged := Snapshot(Over(previous.version, incoming.version), mode, workflow, step, facts, longTerm, currentTrip, pending);
  }

  // ---------- What a snapshot says ----------

  /** Unmerged facts and lists count by what merging makes of them. */
  datatype Summary = Summary(
    version: Option<string>, mode: Option<string>, workflow: Option<string>, step: Option<string>,
    facts: seq<Fact>, longTerm: seq<Item>, currentTrip: seq<Item>, pending: seq<Item>)

  function Say(s: Snapshot): (r: Summary) {
    Summary(s.version, s.mode, s.workflow, s.step, MergedFacts(List(s.facts)),
            FirstBy(Marker, List(s.longTerm)), FirstBy(Marker, List(s.currentTrip)), FirstBy(Marker, List(s.pending)))
  }

  /** What a merge does to the facts, in normal form. */
  lemma FieldFacts(p: Option<seq<Fact>>, i: Option<seq<Fact>>)
    ensures MergedFacts(List(MergedFactsField(p, i))) == MergedFacts(List(p) + List(i))
  {
    var all := MergedFacts(List(p) + List(i));
    MergedFactsSplit(List(p) + List(i), []);
    assert all + [] == all && (List(p) + List(i)) + [] == List(p) + List(i);
    if all == [] {
      NoFactsLeft(List(p), List(i));
    }
  }

  lemma NoFactsLeft(a: seq<Fact>, b: seq<Fact>)
    requires MergedFacts(a + b) == []
    ensures MergedFacts(a) == [] && MergedFacts(b) == []
  {
    MergedFactsKeep(a + b);
    MergedFactsKeep(a);
    MergedFactsKeep(b);
    KeyTextsAppend(a, b);
    assert FactKeys(a + b) == KeyTexts([]) == [];
    forall key | key != ""
      ensures !HasKey(SameText, KeyTexts(a), key) && !HasKey(SameText, KeyTexts(b), key)
    {
      FirstByKeepsKeys(SameText, KeyTexts(a + b), key);
      HasKeyAppend(SameText, KeyTexts(a), KeyTexts(b), key);
    }
    NoKeysNoItems(SameText, KeyTexts(a));
    NoKeysNoItems(SameText, KeyTexts(b));
  }

  lemma NoKeysNoItems<T>(key: T -> string, s: seq<T>)
    requires forall k | k != "" :: !HasKey(key, s, k)
    ensures FirstBy(key, s) == []
  {
    FirstByDistinct(key, s);
    if FirstBy(key, s) != [] {
      var k := key(FirstBy(key, s)[0]);
      FirstByKeepsKeys(key, s, k);
    }
  }

  lemma FieldList(p: Option<seq<Item>>, i: Option<seq<Item>>)
    ensures FirstBy(Marker, List(MergedList(p, i))) == FirstBy(Marker, List(p) + List(i))
  {
    var all := FirstBy(Marker, List(p) + List(i));
    FirstByIdempotent(Marker, List(p) + List(i));
    if all == [] {
      forall k | k != ""
        ensures !HasKey(Marker, List(p), k) && !HasKey(Marker, List(i), k)
      {
        FirstByKeepsKeys(Marker, List(p) + List(i), k);
        HasKeyAppend(Marker, List(p), List(i), k);
      }
      NoKeysNoItems(Marker, List(p));
      NoKeysNoItems(Marker, List(i));
    }
  }

  /** A field of the merged snapshot says what merging the two fields by themselves would say. */
  lemma FactsFieldSaid(p: Option<seq<Fact>>, i: Option<seq<Fact>>, merged: Option<seq<Fact>>)
    requires merged == MergedFactsField(p, i) || (p.None? && merged == i) || (i.None? && merged == p)
    ensures MergedFacts(List(merged)) == MergedFacts(List(p) + List(i))
  {
    FieldFacts(p, i);
    assert [] + List(i) == List(i) && List(p) + [] == List(p);
  }

  lemma FactsSaid(p: Snapshot, i: Snapshot)
    ensures MergedFacts(List(Merged(p, i).facts)) == MergedFacts(List(p.facts) + List(i.facts))
  {
    FactsFieldSaid(p.facts, i.facts, Merged(p, i).facts);
  }

  lemma ListSaid(p: Option<seq<Item>>, i: Option<seq<Item>>, merged: Option<seq<Item>>)
    requires merged == MergedList(p, i) || (p.None? && merged == i) || (i.None? && merged == p)
    ensures FirstBy(Marker, List(merged)) == FirstBy(Marker, List(p) + List(i))
  {
    FieldList(p, i);
    assert [] + List(i) == List(i) && List(p) + [] == List(p);
  }

  // ---------- A whole conversation ----------

  /** The snapshot that the client holds after some snapshots have come in. */
  function Fold(snaps: seq<Snapshot>): (r: Snapshot) {
    if snaps == [] then EMPTY else Merged(Fold(snaps[..|snaps| - 1]), snaps[|snaps| - 1])
  }

  function LastGiven(texts: seq<Option<string>>): (r: Option<string>) {
    if texts == [] then None
    else if texts[|texts| - 1].Some? then texts[|texts| - 1]
    else LastGiven(texts[..|texts| - 1])
  }

  function LastConfirmed(texts: seq<Option<string>>): (r: Option<string>) {
    if texts == [] then None
    else if IsConfirmedPlanningMode(Value(texts[|texts| - 1])) then texts[|texts| - 1]
    else LastConfirmed(texts[..|texts| - 1])
  }

  function LastNonEmpty(texts: seq<Option<string>>): (r: Option<string>) {
    if texts == [] then None
    else if Value(texts[|texts| - 1]) != "" then texts[|texts| - 1]
    else LastNonEmpty(texts[..|texts| - 1])
  }

  /** The last confirmed mode if there ever was one, else the last mode that was given. */
  function SettledMode(texts: seq<Option<string>>): (r: Option<string>) {
    if LastConfirmed(texts).Some? then LastConfirmed(texts) else LastGiven(texts)
  }

  function Modes(snaps: seq<Snapshot>): (r: seq<Option<string>>) {
    if snaps == [] then [] else Modes(snaps[..|snaps| - 1]) + [snaps[|snaps| - 1].mode]
  }

  function Workflows(snaps: seq<Snapshot>): (r: seq<Option<string>>) {
    if snaps == [] then [] else Workflows(snaps[..|snaps| - 1]) + [snaps[|snaps| - 1].workflow]
  }

  function Steps(snaps: seq<Snapshot>): (r: seq<Option<string>>) {
    if snaps == [] then [] else Steps(snaps[..|snaps| - 1]) + [snaps[|snaps| - 1].step]
  }

  function AllFacts(snaps: seq<Snapshot>): (r: seq<Fact>) {
    if snaps == [] then [] else AllFacts(snaps[..|snaps| - 1]) + List(snaps[|snaps| - 1].facts)
  }

  datatype ListField = LongTerm | CurrentTrip | Pending

  function ItemsOf(s: Snapshot, field: ListField): (r: seq<Item>) {
    match field
    case LongTerm => List(s.longTerm)
    case CurrentTrip => List(s.currentTrip)
    case Pending => List(s.pending)
  }

  function AllItems(snaps: seq<Snapshot>, field: ListField): (r: seq<Item>) {
    if snaps == [] then [] else AllItems(snaps[..|snaps| - 1], field) + ItemsOf(snaps[|snaps| - 1], field)
  }

  lemma NotConfirmed()
    ensures !IsConfirmedPlanningMode("")
  {
    assert Trim("") == "";
  }

  lemma {:induction false} ConfirmedIs(texts: seq<Option<string>>)
    ensures LastConfirmed(texts).Some? ==> IsConfirmedPlanningMode(Value(LastConfirmed(texts)))
    ensures LastConfirmed(texts).None? ==> !IsConfirmedPlanningMode(Value(LastGiven(texts)))
  {
    NotConfirmed();
    if texts != [] {
      ConfirmedIs(texts[..|texts| - 1]);
    }
  }

  lemma SettledStep(texts: seq<Option<string>>, text: Option<string>)
    ensures SettledMode(texts + [text]) == MergedMode(SettledMode(texts), text)
  {
    assert (texts + [text])[..|texts|] == texts;
    NotConfirmed();
    ConfirmedIs(texts);
  }

  /**
    Whatever snapshots come in: a mode that was once confirmed is only ever replaced by another
    confirmed one, and so is the workflow.
   */
  lemma {:induction false} FoldSettlesModes(snaps: seq<Snapshot>)
    ensures Fold(snaps).mode == SettledMode(Modes(snaps))
    ensures Fold(snaps).workflow == SettledMode(Workflows(snaps))
  {
    if snaps != [] {
      var front, last := snaps[..|snaps| - 1], snaps[|snaps| - 1];
      FoldSettlesModes(front);
      NotConfirmed();
      SettledStep(Modes(front), last.mode);
      SettledStep(Workflows(front), last.workflow);
    }
  }

  lemma {:induction false} ConfirmedOnce(texts: seq<Option<string>>, i: nat)
    requires i < |texts| && IsConfirmedPlanningMode(Value(texts[i]))
    ensures LastConfirmed(texts).Some?
  {
    NotConfirmed();
    if i < |texts| - 1 {
      ConfirmedOnce(texts[..|texts| - 1], i);
    }
  }

  lemma {:induction false} ModeAt(snaps: seq<Snapshot>, i: nat)
    requires i < |snaps|
    ensures |Modes(snaps)| == |snaps| && Modes(snaps)[i] == snaps[i].mode
    decreases |snaps|
  {
    if i < |snaps| - 1 {
      ModeAt(snaps[..|snaps| - 1], i);
    } else if i > 0 {
      ModeAt(snaps[..|snaps| - 1], 0);
    }
  }

  /** Once the agency plan or free planning was chosen, the client holds one of the two for good. */
  lemma {:induction false} ChosenModeStays(snaps: seq<Snapshot>, i: nat)
    requires i < |snaps| && snaps[i].mode.Some?
    requires Trim(snaps[i].mode.value) == "agency_plan" || Trim(snaps[i].mode.value) == "free_planning"
    ensures var mode := Fold(snaps).mode;
      mode.Some? && (Trim(mode.value) == "agency_plan" || Trim(mode.value) == "free_planning")
  {
    ModeAt(snaps, i);
    ConfirmedOnce(Modes(snaps), i);
    ConfirmedIs(Modes(snaps));
    FoldSettlesModes(snaps);
    NotConfirmed();
  }

  /** A text that is neither of the two is only held until one of them comes. */
  lemma OtherModeGivesWay(p: Snapshot, i: Snapshot)
    requires i.mode.Some? && (Trim(i.mode.value) == "agency_plan" || Trim(i.mode.value) == "free_planning")
    ensures Merged(p, i).mode == i.mode
  {}

  lemma {:induction false} FoldKeepsStep(snaps: seq<Snapshot>)
    ensures Fold(snaps).step == if LastNonEmpty(Steps(snaps)).Some? then LastNonEmpty(Steps(snaps)) else LastGiven(Steps(snaps))
  {
    if snaps != [] {
      var front, last := snaps[..|snaps| - 1], snaps[|snaps| - 1];
      FoldKeepsStep(front);
      assert (Steps(front) + [last.step])[..|Steps(front)|] == Steps(front);
      NonEmptyIs(Steps(front));
    }
  }

  function Versions(snaps: seq<Snapshot>): (r: seq<Option<string>>) {
    if snaps == [] then [] else Versions(snaps[..|snaps| - 1]) + [snaps[|snaps| - 1].version]
  }

  /** The version is the last one given. */
  lemma {:induction false} FoldKeepsVersion(snaps: seq<Snapshot>)
    ensures Fold(snaps).version == LastGiven(Versions(snaps))
  {
    if snaps != [] {
      var front, last := snaps[..|snaps| - 1], snaps[|snaps| - 1];
      FoldKeepsVersion(front);
      assert (Versions(front) + [last.version])[..|Versions(front)|] == Versions(front);
    }
  }

  lemma {:induction false} NonEmptyIs(texts: seq<Option<string>>)
    ensures LastNonEmpty(texts).Some? ==> Value(LastNonEmpty(texts)) != ""
    ensures LastNonEmpty(texts).None? ==> Value(LastGiven(texts)) == ""
  {
    if texts != [] {
      NonEmptyIs(texts[..|texts| - 1]);
    }
  }

  /** ... every fact key keeps its last value, in first-seen order, */
  lemma {:induction false} FoldCollectsFacts(snaps: seq<Snapshot>)
    ensures MergedFacts(List(Fold(snaps).facts)) == MergedFacts(AllFacts(snaps))
  {
    if snaps != [] {
      var front, last := snaps[..|snaps| - 1], snaps[|snaps| - 1];
      var before := Fold(front);
      FoldCollectsFacts(front);
      FactsSaid(before, last);
      MergedFactsSplit(List(before.facts), List(last.facts));
      MergedFactsSplit(AllFacts(front), List(last.facts));
    }
  }

  /** ... and every preference and every open point is listed once, in first-seen order. */
  lemma {:induction false} FoldCollectsItems(snaps: seq<Snapshot>, field: ListField)
    ensures FirstBy(Marker, ItemsOf(Fold(snaps), field)) == FirstBy(Marker, AllItems(snaps, field))
  {
    if snaps != [] {
      var front, last := snaps[..|snaps| - 1], snaps[|snaps| - 1];
      var before := Fold(front);
      FoldCollectsItems(front, field);
      AllListsSaid(before, last);
      FirstBySplit(Marker, ItemsOf(before, field), ItemsOf(last, field));
      FirstBySplit(Marker, AllItems(front, field), ItemsOf(last, field));
    }
  }

  lemma {:induction false} FoldIsEmptyIff(snaps: seq<Snapshot>)
    ensures Fold(snaps) == EMPTY <==> Given(snaps) == 0
  {
    if snaps != [] {
      FoldIsEmptyIff(snaps[..|snaps| - 1]);
    }
  }

  /** How many snapshots have any field. */
  function Given(snaps: seq<Snapshot>): (n: nat) {
    if snaps == [] then 0 else Given(snaps[..|snaps| - 1]) + if snaps[|snaps| - 1] == EMPTY then 0 else 1
  }

  lemma FactsMerged(before: Snapshot, last: Snapshot)
    requires before != EMPTY && last != EMPTY && MergedFacts(List(before.facts) + List(last.facts)) != []
    ensures List(Merged(before, last).facts) == MergedFacts(List(before.facts) + List(last.facts))
  {}

  /** From the second snapshot on, the client holds exactly these facts, as soon as there are any. */
  lemma {:induction false} FoldHoldsFacts(snaps: seq<Snapshot>)
    requires Given(snaps) >= 2 && MergedFacts(AllFacts(snaps)) != []
    ensures List(Fold(snaps).facts) == MergedFacts(AllFacts(snaps))
  {
    var front, last := snaps[..|snaps| - 1], snaps[|snaps| - 1];
    var before := Fold(front);
    if last == EMPTY {
      assert AllFacts(front) + [] == AllFacts(front);
      FoldHoldsFacts(front);
    } else {
      FoldIsEmptyIff(front);
      FoldCollectsFacts(front);
      MergedFactsSplit(List(before.facts), List(last.facts));
      MergedFactsSplit(AllFacts(front), List(last.facts));
      FactsMerged(before, last);
    }
  }

  lemma ItemsMerged(before: Snapshot, last: Snapshot, field: ListField)
    requires before != EMPTY && last != EMPTY && FirstBy(Marker, ItemsOf(before, field) + ItemsOf(last, field)) != []
    ensures ItemsOf(Merged(before, last), field) == FirstBy(Marker, ItemsOf(before, field) + ItemsOf(last, field))
  {}

  /** Likewise for the lists. */
  lemma {:induction false} FoldHoldsItems(snaps: seq<Snapshot>, field: ListField)
    requires Given(snaps) >= 2 && FirstBy(Marker, AllItems(snaps, field)) != []
    ensures ItemsOf(Fold(snaps), field) == FirstBy(Marker, AllItems(snaps, field))
  {
    var front, last := snaps[..|snaps| - 1], snaps[|snaps| - 1];
    var before := Fold(front);
    if last == EMPTY {
      assert AllItems(front, field) + [] == AllItems(front, field);
      FoldHoldsItems(front, field);
    } else {
      FoldIsEmptyIff(front);
      FoldCollectsItems(front, field);
      FirstBySplit(Marker, ItemsOf(before, field), ItemsOf(last, field));
      FirstBySplit(Marker, AllItems(front, field), ItemsOf(last, field));
      ItemsMerged(before, last, field);
    }
  }

  // ---------- Associativity ----------

  lemma ModesAssociate(a: Option<string>, b: Option<string>, c: Option<string>)
    ensures MergedMode(MergedMode(a, b), c) == MergedMode(a, MergedMode(b, c))
    ensures MergedStep(MergedStep(a, b), c) == MergedStep(a, MergedStep(b, c))
    ensures MergedMode(None, a) == a == MergedMode(a, None)
    ensures MergedStep(None, a) == a == MergedStep(a, None)
  {}

  lemma FactsAssociate(a: Snapshot, b: Snapshot, c: Snapshot)
    ensures MergedFacts(List(Merged(Merged(a, b), c).facts)) == MergedFacts(List(Merged(a, Merged(b, c)).facts))
  {
    var ab, bc := Merged(a, b), Merged(b, c);
    FactsSaid(a, b);
    FactsSaid(ab, c);
    FactsSaid(b, c);
    FactsSaid(a, bc);
    MergedFactsSplit(List(ab.facts), List(c.facts));
    MergedFactsSplit(List(a.facts) + List(b.facts), List(c.facts));
    MergedFactsSplit(List(a.facts), List(bc.facts));
    MergedFactsSplit(List(a.facts), List(b.facts) + List(c.facts));
    Assoc(List(a.facts), List(b.facts), List(c.facts));
  }

  /** `ab`, `bc`, `left` and `right` are the list fields of the partial and full merges. */
  lemma ListsAssociate(
    a: Option<seq<Item>>, b: Option<seq<Item>>, c: Option<seq<Item>>,
    ab: Option<seq<Item>>, bc: Option<seq<Item>>, left: Option<seq<Item>>, right: Option<seq<Item>>)
    requires FirstBy(Marker, List(ab)) == FirstBy(Marker, List(a) + List(b))
    requires FirstBy(Marker, List(bc)) == FirstBy(Marker, List(b) + List(c))
    requires FirstBy(Marker, List(left)) == FirstBy(Marker, List(ab) + List(c))
    requires FirstBy(Marker, List(right)) == FirstBy(Marker, List(a) + List(bc))
    ensures FirstBy(Marker, List(left)) == FirstBy(Marker, List(right))
  {
    FirstBySplit(Marker, List(ab), List(c));
    FirstBySplit(Marker, List(a) + List(b), List(c));
    FirstBySplitRight(Marker, List(a), List(bc));
    FirstBySplitRight(Marker, List(a), List(b) + List(c));
    Assoc(List(a), List(b), List(c));
  }

  lemma AllListsSaid(p: Snapshot, i: Snapshot)
    ensures var m := Merged(p, i);
      && FirstBy(Marker, List(m.longTerm)) == FirstBy(Marker, List(p.longTerm) + List(i.longTerm))
      && FirstBy(Marker, List(m.currentTrip)) == FirstBy(Marker, List(p.currentTrip) + List(i.currentTrip))
      && FirstBy(Marker, List(m.pending)) == FirstBy(Marker, List(p.pending) + List(i.pending))
  {
    var m := Merged(p, i);
    ListSaid(p.longTerm, i.longTerm, m.longTerm);
    ListSaid(p.currentTrip, i.currentTrip, m.currentTrip);
    ListSaid(p.pending, i.pending, m.pending);
  }

  lemma FieldsAssociate(a: Snapshot, b: Snapshot, c: Snapshot)
    ensures var left, right := Merged(Merged(a, b), c), Merged(a, Merged(b, c));
      left.version == right.version && left.mode == right.mode && left.workflow == right.workflow && left.step == right.step
  {
    ModesAssociate(a.mode, b.mode, c.mode);
    ModesAssociate(a.workflow, b.workflow, c.workflow);
    ModesAssociate(a.step, b.step, c.step);
    FieldsMerged(a, b);
    FieldsMerged(b, c);
    FieldsMerged(Merged(a, b), c);
    FieldsMerged(a, Merged(b, c));
  }

  lemma FieldsMerged(p: Snapshot, i: Snapshot)
    ensures var m := Merged(p, i);
      && m.version == Over(p.version, i.version) && m.mode == MergedMode(p.mode, i.mode)
      && m.workflow == MergedMode(p.workflow, i.workflow) && m.step == MergedStep(p.step, i.step)
  {}

  /** It does not matter how incoming snapshots are grouped. */
  lemma MergeAssociates(a: Snapshot, b: Snapshot, c: Snapshot)
    ensures Say(Merged(Merged(a, b), c)) == Say(Merged(a, Merged(b, c)))
  {
    var ab, bc := Merged(a, b), Merged(b, c);
    var left, right := Merged(ab, c), Merged(a, bc);
    FieldsAssociate(a, b, c);
    FactsAssociate(a, b, c);
    AllListsSaid(a, b);
    AllListsSaid(b, c);
    AllListsSaid(ab, c);
    AllListsSaid(a, bc);
    ListsAssociate(a.longTerm, b.longTerm, c.longTerm, ab.longTerm, bc.longTerm, left.longTerm, right.longTerm);
    ListsAssociate(a.currentTrip, b.currentTrip, c.currentTrip, ab.currentTrip, bc.currentTrip, left.currentTrip, right.currentTrip);
    ListsAssociate(a.pending, b.pending, c.pending, ab.pending, bc.pending, left.pending, right.pending);
  }
}
