/**
 * Canonical JSON and tool schema hashes (`canonical_json`, `compute_tool_schema_hash`). A JSON object
 * is a list of entries in iteration order; its meaning is a map, so that "differs only by key order"
 * is equality of meanings.
 */
module CanonicalJson {
  import opened Collections

  datatype Json =
    | Null
    | Bool(b: bool)
    | Number(text: string)
    | String(s: string)
    | Array(items: seq<Json>)
    | Object(entries: seq<Entry>)

  datatype Entry = Entry(key: string, value: Json)

  /** The value without any order of keys. */
  datatype Meaning =
    | Scalar(json: Json)
    | List(items: seq<Meaning>)
    | Record(fields: map<string, Meaning>)

  ghost predicate DistinctKeys(entries: seq<Entry>) {
    forall i, j :: 0 <= i < j < |entries| ==> entries[i].key != entries[j].key
  }

  ghost function MeaningOf(v: Json): Meaning
    decreases v
  {
    match v
    case Array(items) => List(MeaningOfItems(items))
    case Object(entries) => Record(MeaningOfEntries(entries))
    case _ => Scalar(v)
  }

  ghost function MeaningOfItems(items: seq<Json>): seq<Meaning>
    decreases items
  {
    seq(|items|, i requires 0 <= i < |items| => MeaningOf(items[i]))
  }

  ghost function MeaningOfEntries(entries: seq<Entry>): map<string, Meaning>
    decreases entries
  {
    if entries == [] then map[]
    else MeaningOfEntries(entries[..|entries| - 1])[entries[|entries| - 1].key :=
                                                    MeaningOf(entries[|entries| - 1].value)]
  }

  // ---- Key order ----

  /** Strings in the order of their characters, as the sorted map keeps them. */
  predicate Less(a: string, b: string) {
    if b == "" then false
    else if a == "" then true
    else a[0] < b[0] || (a[0] == b[0] && Less(a[1..], b[1..]))
  }

  lemma {:induction false} LessTotal(a: string, b: string)
    ensures a == b || Less(a, b) || Less(b, a)
    ensures !Less(a, a)
    ensures !(Less(a, b) && Less(b, a))
  {
    if a != "" {
      LessTotal(a[1..], if b == "" then "" else b[1..]);
      if b != "" && a[0] == b[0] && a[1..] == b[1..] {
        assert a == [a[0]] + a[1..] && b == [b[0]] + b[1..];
      }
    }
  }

  lemma {:induction false} LessTransitive(a: string, b: string, c: string)
    requires Less(a, b) && Less(b, c)
    ensures Less(a, c)
  {
    if a != "" && a[0] == b[0] == c[0] {
      LessTransitive(a[1..], b[1..], c[1..]);
    }
  }

  ghost predicate Sorted(entries: seq<Entry>) {
    forall i, j :: 0 <= i < j < |entries| ==> Less(entries[i].key, entries[j].key)
  }

  // ---- The canonical form ----

  /** Inserting into the sorted map: an equal key is replaced. */
  function Insert(entries: seq<Entry>, e: Entry): seq<Entry> {
    if entries == [] then [e]
    else if e.key == entries[0].key then [e] + entries[1..]
    else if Less(e.key, entries[0].key) then [e] + entries
    else [entries[0]] + Insert(entries[1..], e)
  }

  /** `canonical_json`. */
  function Canonical(v: Json): Json
    decreases v
  {
    match v
    case Array(items) => Array(CanonicalItems(items))
    case Object(entries) => Object(CanonicalEntries(entries))
    case _ => v
  }

  function CanonicalItems(items: seq<Json>): seq<Json>
    decreases items
  {
    seq(|items|, i requires 0 <= i < |items| => Canonical(items[i]))
  }

  /** All entries collected into the sorted map, in iteration order. */
  function CanonicalEntries(entries: seq<Entry>): seq<Entry>
    decreases entries
  {
    if entries == [] then []
    else
      var last := entries[|entries| - 1];
      Insert(CanonicalEntries(entries[..|entries| - 1]), Entry(last.key, Canonical(last.value)))
  }

  // ---- Insertion into a sorted list ----

  ghost predicate Bounded(entries: seq<Entry>, low: string) {
    forall i :: 0 <= i < |entries| ==> Less(low, entries[i].key)
  }

  lemma {:induction false} InsertSorted(entries: seq<Entry>, e: Entry)
    requires Sorted(entries)
    ensures Sorted(Insert(entries, e))
    ensures forall low :: Bounded(entries, low) && Less(low, e.key) ==> Bounded(Insert(entries, e), low)
  {
    if entries != [] {
      LessTotal(e.key, entries[0].key);
      if Less(e.key, entries[0].key) {
        forall i | 0 <= i < |entries| ensures Less(e.key, entries[i].key) {
          if i > 0 {
            LessTransitive(e.key, entries[0].key, entries[i].key);
          }
        }
      } else if e.key != entries[0].key {
        InsertSorted(entries[1..], e);
        assert Bounded(entries[1..], entries[0].key);
        forall low | Bounded(entries, low) && Less(low, e.key) ensures Bounded(Insert(entries, e), low) {
          assert Bounded(entries[1..], low);
          assert Less(low, entries[0].key);
        }
      }
    }
  }

  /** The same facts with the head taken off the front, as sorted lists are read. */
  lemma {:induction false} MeaningCons(e: Entry, rest: seq<Entry>)
    requires forall i :: 0 <= i < |rest| ==> rest[i].key != e.key
    ensures MeaningOfEntries([e] + rest) == MeaningOfEntries(rest)[e.key := MeaningOf(e.value)]
    decreases |rest|
  {
    if rest == [] {
      assert [e] + rest == [e];
      assert [e][..0] == [];
    } else {
      var last, init := rest[|rest| - 1], rest[..|rest| - 1];
      MeaningCons(e, init);
      assert ([e] + rest)[..|rest|] == [e] + init;
    }
  }

  lemma SortedHeadApart(entries: seq<Entry>)
    requires entries != [] && Sorted(entries)
    ensures Sorted(entries[1..]) && Bounded(entries[1..], entries[0].key)
    ensures forall i :: 0 <= i < |entries[1..]| ==> entries[1..][i].key != entries[0].key
    ensures MeaningOfEntries(entries) == MeaningOfEntries(entries[1..])[entries[0].key := MeaningOf(entries[0].value)]
  {
    LessTotalKeys(entries);
    MeaningCons(entries[0], entries[1..]);
    assert [entries[0]] + entries[1..] == entries;
  }

  lemma LessTotalKeys(entries: seq<Entry>)
    requires Sorted(entries)
    ensures DistinctKeys(entries)
  {
    forall i, j | 0 <= i < j < |entries| ensures entries[i].key != entries[j].key {
      LessTotal(entries[i].key, entries[j].key);
    }
  }

  /** Inserting sets exactly one field of the meaning. */
  lemma {:induction false} InsertMeaning(entries: seq<Entry>, e: Entry)
    requires Sorted(entries)
    ensures MeaningOfEntries(Insert(entries, e)) == MeaningOfEntries(entries)[e.key := MeaningOf(e.value)]
  {
    InsertSorted(entries, e);
    var r := Insert(entries, e);
    SortedHeadApart(r);
    if entries == [] {
      assert r[1..] == [];
    } else {
      SortedHeadApart(entries);
      if e.key == entries[0].key {
        assert r[1..] == entries[1..];
      } else if Less(e.key, entries[0].key) {
        assert r[1..] == entries;
      } else {
        InsertMeaning(entries[1..], e);
        assert r[1..] == Insert(entries[1..], e);
        UpdatesCommute(
          MeaningOfEntries(entries[1..]), e.key, MeaningOf(e.value), entries[0].key, MeaningOf(entries[0].value));
      }
    }
  }

  lemma UpdatesCommute(m: map<string, Meaning>, k: string, v: Meaning, h: string, w: Meaning)
    requires k != h
    ensures m[k := v][h := w] == m[h := w][k := v]
  {
  }

  // ---- Canonical forms are sorted and keep their meaning ----

  /** Sorted at every depth. */
  ghost predicate IsCanonical(v: Json) {
    match v
    case Array(items) => forall i :: 0 <= i < |items| ==> IsCanonical(items[i])
    case Object(entries) => Sorted(entries) && forall i :: 0 <= i < |entries| ==> IsCanonical(entries[i].value)
    case _ => true
  }

  lemma {:induction false} CanonicalKeepsMeaning(v: Json)
    ensures IsCanonical(Canonical(v)) && MeaningOf(Canonical(v)) == MeaningOf(v)
    decreases v
  {
    match v
    case Array(items) =>
      forall i | 0 <= i < |items|
        ensures IsCanonical(Canonical(items[i])) && MeaningOf(Canonical(items[i])) == MeaningOf(items[i])
      {
        CanonicalKeepsMeaning(items[i]);
      }
      assert MeaningOfItems(CanonicalItems(items)) == MeaningOfItems(items);
    case Object(entries) =>
      CanonicalEntriesKeepMeaning(entries);
    case _ =>
  }

  lemma {:induction false} CanonicalEntriesKeepMeaning(entries: seq<Entry>)
    ensures Sorted(CanonicalEntries(entries))
    ensures forall i :: 0 <= i < |CanonicalEntries(entries)| ==> IsCanonical(CanonicalEntries(entries)[i].value)
    ensures MeaningOfEntries(CanonicalEntries(entries)) == MeaningOfEntries(entries)
    decreases entries
  {
    if entries != [] {
      var last, init := entries[|entries| - 1], entries[..|entries| - 1];
      CanonicalEntriesKeepMeaning(init);
      CanonicalKeepsMeaning(last.value);
      var e := Entry(last.key, Canonical(last.value));
      InsertSorted(CanonicalEntries(init), e);
      InsertMeaning(CanonicalEntries(init), e);
      InsertValues(CanonicalEntries(init), e);
    }
  }

  lemma {:induction false} InsertValues(entries: seq<Entry>, e: Entry)
    ensures forall i :: 0 <= i < |Insert(entries, e)| ==> Insert(entries, e)[i] == e || Insert(entries, e)[i] in entries
  {
    if entries != [] && e.key != entries[0].key && !Less(e.key, entries[0].key) {
      InsertValues(entries[1..], e);
      forall i | 0 <= i < |Insert(entries, e)| ensures Insert(entries, e)[i] == e || Insert(entries, e)[i] in entries {
        assert i > 0 ==> Insert(entries, e)[i] == Insert(entries[1..], e)[i - 1];
      }
    }
  }

  // ---- A meaning has one canonical form ----

  lemma {:induction false} OneCanonicalForm(a: Json, b: Json)
    requires IsCanonical(a) && IsCanonical(b) && MeaningOf(a) == MeaningOf(b)
    ensures a == b
    decreases a
  {
    match a
    case Array(items) =>
      assert |items| == |MeaningOfItems(items)| == |MeaningOfItems(b.items)| == |b.items|;
      forall i | 0 <= i < |items| ensures items[i] == b.items[i] {
        assert MeaningOf(items[i]) == MeaningOfItems(items)[i] == MeaningOfItems(b.items)[i] == MeaningOf(b.items[i]);
        OneCanonicalForm(items[i], b.items[i]);
      }
    case Object(entries) =>
      OneSortedList(entries, b.entries);
    case _ =>
  }

  lemma {:induction false} OneSortedList(a: seq<Entry>, b: seq<Entry>)
    requires Sorted(a) && Sorted(b) && MeaningOfEntries(a) == MeaningOfEntries(b)
    requires forall i :: 0 <= i < |a| ==> IsCanonical(a[i].value)
    requires forall i :: 0 <= i < |b| ==> IsCanonical(b[i].value)
    ensures a == b
    decreases a
  {
    if a == [] || b == [] {
      NoFields(a);
      NoFields(b);
    } else {
      HeadsAgree(a, b);
      SortedTail(a);
      SortedTail(b);
      OneCanonicalForm(a[0].value, b[0].value);
      OneSortedList(a[1..], b[1..]);
      assert a == [a[0]] + a[1..] && b == [b[0]] + b[1..];
    }
  }

  lemma NoFields(a: seq<Entry>)
    ensures MeaningOfEntries(a) == map[] <==> a == []
  {
    if a != [] {
      assert a[|a| - 1].key in MeaningOfEntries(a);
    }
  }

  lemma SortedTail(a: seq<Entry>)
    requires a != [] && Sorted(a)
    ensures Sorted(a[1..])
  {
  }

  /** Two sorted lists with one meaning start with the same entry and go on with the same meaning. */
  lemma HeadsAgree(a: seq<Entry>, b: seq<Entry>)
    requires a != [] && b != [] && Sorted(a) && Sorted(b) && MeaningOfEntries(a) == MeaningOfEntries(b)
    ensures a[0].key == b[0].key && MeaningOf(a[0].value) == MeaningOf(b[0].value)
    ensures MeaningOfEntries(a[1..]) == MeaningOfEntries(b[1..])
  {
    SameHead(a, b);
    HeadRemoved(a);
    HeadRemoved(b);
  }

  lemma HeadRemoved(a: seq<Entry>)
    requires a != [] && Sorted(a)
    ensures a[0].key in MeaningOfEntries(a) && MeaningOfEntries(a)[a[0].key] == MeaningOf(a[0].value)
    ensures MeaningOfEntries(a[1..]) == MeaningOfEntries(a) - {a[0].key}
  {
    SortedHeadApart(a);
    KeysOfMeaning(a[1..]);
    RemoveAdded(MeaningOfEntries(a[1..]), a[0].key, MeaningOf(a[0].value));
  }

  lemma RemoveAdded(m: map<string, Meaning>, k: string, v: Meaning)
    requires k !in m
    ensures m[k := v] - {k} == m
  {
  }

  lemma {:induction false} KeysOfMeaning(entries: seq<Entry>)
    ensures forall k :: k in MeaningOfEntries(entries) <==> exists i :: 0 <= i < |entries| && entries[i].key == k
  {
    if entries != [] {
      var init := entries[..|entries| - 1];
      KeysOfMeaning(init);
      forall k ensures k in MeaningOfEntries(entries) <==> exists i :: 0 <= i < |entries| && entries[i].key == k {
        if k in MeaningOfEntries(init) {
          var i :| 0 <= i < |init| && init[i].key == k;
          assert entries[i].key == k;
        }
        if i :| 0 <= i < |entries| && entries[i].key == k {
          if i < |init| {
            assert init[i].key == k;
          }
        }
      }
    }
  }

  /** The smallest key comes first in both. */
  lemma SameHead(a: seq<Entry>, b: seq<Entry>)
    requires a != [] && b != [] && Sorted(a) && Sorted(b) && MeaningOfEntries(a) == MeaningOfEntries(b)
    ensures a[0].key == b[0].key
  {
    KeysOfMeaning(a);
    KeysOfMeaning(b);
    assert a[0].key in MeaningOfEntries(b) && b[0].key in MeaningOfEntries(a);
    var i :| 0 <= i < |b| && b[i].key == a[0].key;
    var j :| 0 <= j < |a| && a[j].key == b[0].key;
    LessTotal(a[0].key, b[0].key);
  }

  // ---- The results ----

  /** Two documents have the same canonical form exactly when they differ only by key order. */
  lemma CanonicalExactly(a: Json, b: Json)
    ensures Canonical(a) == Canonical(b) <==> MeaningOf(a) == MeaningOf(b)
  {
    CanonicalKeepsMeaning(a);
    CanonicalKeepsMeaning(b);
    if MeaningOf(a) == MeaningOf(b) {
      OneCanonicalForm(Canonical(a), Canonical(b));
    }
  }

  lemma CanonicalIdempotent(v: Json)
    ensures Canonical(Canonical(v)) == Canonical(v)
  {
    CanonicalKeepsMeaning(v);
    CanonicalExactly(Canonical(v), v);
  }

  /** `compute_tool_schema_hash`, for any way of serialising and hashing. */
  function ToolSchemaHash<H>(hash: Json -> H, input: Json, output: Option<Json>): H {
    hash(SchemaPair(Canonical(input), if output.Some? then Canonical(output.value) else Null))
  }

  function SchemaPair(input: Json, output: Json): Json {
    Object([Entry("input_schema", input), Entry("output_schema", output)])
  }

  ghost function OptionMeaning(output: Option<Json>): Option<Meaning> {
    if output.Some? then Some(MeaningOf(output.value)) else None
  }

  /** What is hashed: each schema in canonical form under its own name, a missing output schema as null. */
  lemma HashedValue<H>(hash: Json -> H, input: Json, output: Option<Json>)
    ensures ToolSchemaHash(hash, input, output) ==
            hash(Object([Entry("input_schema", Canonical(input)),
                         Entry("output_schema", if output.Some? then Canonical(output.value) else Null)]))
  {
  }

  /** The order of keys is that of their characters: the first difference decides, and a prefix comes first. */
  lemma {:induction false} LessIsLexicographic(a: string, b: string)
    ensures Less(a, b) <==>
            exists k :: 0 <= k <= |a| && k < |b| && a[..k] == b[..k] && (k == |a| || a[k] < b[k])
  {
    if a != "" && b != "" && a[0] == b[0] {
      LessIsLexicographic(a[1..], b[1..]);
      if k :| 0 <= k <= |a| && k < |b| && a[..k] == b[..k] && (k == |a| || a[k] < b[k]) {
        assert k > 0;
        assert a[1..][..k - 1] == a[..k][1..] && b[1..][..k - 1] == b[..k][1..];
        assert (k - 1 == |a[1..]| || a[1..][k - 1] < b[1..][k - 1]);
      }
      var p, q := a[1..], b[1..];
      if k :| 0 <= k <= |p| && k < |q| && p[..k] == q[..k] && (k == |p| || p[k] < q[k]) {
        assert a[..k + 1] == [a[0]] + a[1..][..k] && b[..k + 1] == [b[0]] + b[1..][..k];
      }
    } else if b != "" {
      if a == "" {
        assert a[..0] == b[..0];
      } else {
        assert a[..0] == b[..0];
        assert forall k :: 1 <= k <= |a| && k < |b| ==> a[..k][0] == a[0] && b[..k][0] == b[0];
      }
    }
  }

  /** Schemas that differ only by key order at any depth have the same hash. */
  lemma HashIgnoresKeyOrder<H>(hash: Json -> H, a: Json, b: Json, outA: Option<Json>, outB: Option<Json>)
    requires MeaningOf(a) == MeaningOf(b) && OptionMeaning(outA) == OptionMeaning(outB)
    ensures ToolSchemaHash(hash, a, outA) == ToolSchemaHash(hash, b, outB)
  {
    CanonicalExactly(a, b);
    if outA.Some? {
      CanonicalExactly(outA.value, outB.value);
    }
  }

  /**
   * With a collision-free hash, equal hashes mean equal schemas up to key order, except that a
   * missing output schema and the schema `null` are not told apart.
   */
  lemma HashExactly<H>(hash: Json -> H, a: Json, b: Json, outA: Option<Json>, outB: Option<Json>)
    requires forall x, y :: hash(x) == hash(y) ==> x == y
    ensures ToolSchemaHash(hash, a, outA) == ToolSchemaHash(hash, b, outB) <==>
            && MeaningOf(a) == MeaningOf(b)
            && (if outA.Some? then MeaningOf(outA.value) else Scalar(Null))
            == (if outB.Some? then MeaningOf(outB.value) else Scalar(Null))
  {
    CanonicalExactly(a, b);
    var x, y := if outA.Some? then outA.value else Null, if outB.Some? then outB.value else Null;
    CanonicalExactly(x, y);
    SchemaPairInjective(Canonical(a), Canonical(x), Canonical(b), Canonical(y));
  }

  lemma SchemaPairInjective(a: Json, x: Json, b: Json, y: Json)
    ensures SchemaPair(a, x) == SchemaPair(b, y) <==> a == b && x == y
  {
    var m, n := SchemaPair(a, x).entries, SchemaPair(b, y).entries;
    assert m == n ==> m[0] == n[0] && m[1] == n[1];
  }
}
