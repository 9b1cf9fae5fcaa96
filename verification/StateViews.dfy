/**
 Views of the event ledger: the fold `#reduceView` (`src/state/index.ts`) and `reduceEvents`
 (`src/state/management.ts`) share.  A `Map` is its entries in insertion order, one per key.
 */
module StateViews {
  import opened Options
  import opened Canonical

  /** A JSON object payload; `value` is its own property of that name, if it has one. */
  datatype Payload = Payload(value: Option<string>, json: string)

  datatype Event = Event(seqNo: int, eventId: string, stateId: Text, payload: Payload, details: string,
                         idempotencyKey: string)

  datatype Value = Value(stateId: Text, value: EventValue, sourceEventId: string)

  datatype EventValue = Own(value: string) | Whole(payload: Payload)

  /** What the store keeps per state; `details` stands for type, observation time and source. */
  datatype Entry = Entry(stateId: Text, eventId: string, payload: Payload, details: string)

  /** Hashes are constructors over what is hashed. */
  datatype ViewChecksum = ViewChecksum(instanceId: string, activeSeq: nat, values: seq<Value>)

  datatype ViewVersion = ViewVersion(activeSeq: nat, checksum: ViewChecksum)

  function ValueOf(p: Payload): EventValue { if p.value.Some? then Own(p.value.value) else Whole(p) }

  function EntryOf(e: Event): Entry { Entry(e.stateId, e.eventId, e.payload, e.details) }

  function ValueOfEntry(e: Entry): Value { Value(e.stateId, ValueOf(e.payload), e.eventId) }

  function ValueOfEvent(e: Event): Value { Value(e.stateId, ValueOf(e.payload), e.eventId) }

  function EntryKey(): Entry -> Text { (e: Entry) => e.stateId }

  function ValueKey(): Value -> Text { (v: Value) => v.stateId }

  /** `map.set`: an existing key keeps its place. */
  function Set<T>(entries: seq<T>, x: T, key: T -> Text): seq<T> {
    if entries == [] then [x]
    else if key(entries[0]) == key(x) then [x] + entries[1..]
    else [entries[0]] + Set(entries[1..], x, key)
  }

  function Fold<T>(events: seq<Event>, item: Event -> T, key: T -> Text): seq<T> {
    if events == [] then []
    else Set(Fold(events[..|events| - 1], item, key), item(events[|events| - 1]), key)
  }

  /** `#reduceView` over the rows up to a revision. */
  function ReduceEntries(events: seq<Event>): seq<Entry> { Sort(Fold(events, EntryOf, EntryKey()), EntryKey()) }

  function Values(entries: seq<Entry>): (r: seq<Value>)
    ensures |r| == |entries| && forall i | 0 <= i < |r| :: r[i] == ValueOfEntry(entries[i])
  {
    if entries == [] then [] else [ValueOfEntry(entries[0])] + Values(entries[1..])
  }

  /** `calculateStateViewChecksum`. */
  function ChecksumOf(instanceId: string, activeSeq: nat, values: seq<Value>): ViewChecksum {
    ViewChecksum(instanceId, activeSeq, Sort(values, ValueKey()))
  }

  /** `checksumView` of what `#reduceView` returns. */
  function StoreChecksum(instanceId: string, events: seq<Event>): ViewChecksum {
    ChecksumOf(instanceId, |events|, Values(ReduceEntries(events)))
  }

  /** The values `reduceEvents` collects, sorted as `contractViewFromValues` sorts them. */
  function ReduceValues(events: seq<Event>): seq<Value> { Sort(Fold(events, ValueOfEvent, ValueKey()), ValueKey()) }

  /******* What the fold means *******/

  /** `i` is the last event of its state. */
  predicate IsLatest(events: seq<Event>, i: int) {
    0 <= i < |events| && forall j | i < j < |events| :: events[j].stateId != events[i].stateId
  }

  lemma {:induction false} SetReplaces<T>(entries: seq<T>, x: T, key: T -> Text)
    requires DistinctBy(entries, key)
    ensures DistinctBy(Set(entries, x, key), key)
    ensures forall y :: y in Set(entries, x, key) <==> y == x || (y in entries && key(y) != key(x))
    ensures forall i | 0 <= i < |Set(entries, x, key)| ::
            Set(entries, x, key)[i] == x || Set(entries, x, key)[i] in entries
  {
    if entries == [] {
    } else if key(entries[0]) == key(x) {
      assert entries == [entries[0]] + entries[1..];
    } else {
      var rest := Set(entries[1..], x, key);
      SetReplaces(entries[1..], x, key);
      assert entries == [entries[0]] + entries[1..];
      forall j | 0 <= j < |rest| ensures key(entries[0]) != key(rest[j]) {
        if rest[j] != x {
          var k :| 0 <= k < |entries[1..]| && entries[1..][k] == rest[j];
          assert key(entries[0]) != key(entries[k + 1]);
        }
      }
    }
  }

  ghost predicate Reports<T>(events: seq<Event>, item: Event -> T, x: T) {
    exists i :: IsLatest(events, i) && x == item(events[i])
  }

  lemma ReportsUnrolls<T>(events: seq<Event>, item: Event -> T, key: T -> Text, x: T)
    requires events != [] && forall e :: key(item(e)) == e.stateId
    ensures var last := events[|events| - 1];
            Reports(events, item, x) <==>
              x == item(last) || (Reports(events[..|events| - 1], item, x) && key(x) != last.stateId)
  {}

  /** A view holds exactly the latest event of every state, once. */
  lemma {:induction false} FoldIsLatest<T>(events: seq<Event>, item: Event -> T, key: T -> Text)
    requires forall e :: key(item(e)) == e.stateId
    ensures DistinctBy(Fold(events, item, key), key)
    ensures forall x :: x in Fold(events, item, key) <==> Reports(events, item, x)
  {
    if events != [] {
      var n := |events| - 1;
      FoldIsLatest(events[..n], item, key);
      SetReplaces(Fold(events[..n], item, key), item(events[n]), key);
      forall x ensures x in Fold(events, item, key) <==> Reports(events, item, x) {
        ReportsUnrolls(events, item, key, x);
      }
    }
  }

  lemma ViewIsLatestEvents(events: seq<Event>)
    ensures var view := ReduceEntries(events);
            && DistinctBy(view, EntryKey()) && SortedBy(view, EntryKey())
            && forall x :: x in view <==> Reports(events, EntryOf, x)
  {
    var fold := Fold(events, EntryOf, EntryKey());
    FoldIsLatest(events, EntryOf, EntryKey());
    SortSorts(fold, EntryKey());
    DistinctIsAboutContents(fold, ReduceEntries(events), EntryKey());
    forall x ensures x in ReduceEntries(events) <==> x in fold {
      assert x in ReduceEntries(events) <==> x in multiset(ReduceEntries(events));
      assert x in fold <==> x in multiset(fold);
    }
  }

  /******* The two reductions agree *******/

  lemma {:induction false} SetCommutes(entries: seq<Entry>, x: Entry)
    ensures Values(Set(entries, x, EntryKey())) == Set(Values(entries), ValueOfEntry(x), ValueKey())
  {
    if entries != [] && entries[0].stateId != x.stateId {
      SetCommutes(entries[1..], x);
      assert Values(entries)[1..] == Values(entries[1..]);
    } else if entries != [] {
      assert Values(entries)[1..] == Values(entries[1..]);
      assert Values([x] + entries[1..]) == [ValueOfEntry(x)] + Values(entries[1..]);
    }
  }

  lemma {:induction false} FoldCommutes(events: seq<Event>)
    ensures Values(Fold(events, EntryOf, EntryKey())) == Fold(events, ValueOfEvent, ValueKey())
  {
    if events != [] {
      var front := events[..|events| - 1];
      FoldCommutes(front);
      SetCommutes(Fold(front, EntryOf, EntryKey()), EntryOf(events[|events| - 1]));
    }
  }

  lemma {:induction false} InsertCommutes(x: Entry, entries: seq<Entry>)
    ensures Values(Insert(x, entries, EntryKey())) == Insert(ValueOfEntry(x), Values(entries), ValueKey())
  {
    if entries != [] && !TextAtMost(x.stateId, entries[0].stateId) {
      InsertCommutes(x, entries[1..]);
      assert Values(entries)[1..] == Values(entries[1..]);
    } else {
      assert Values([x] + entries) == [ValueOfEntry(x)] + Values(entries);
    }
  }

  lemma {:induction false} SortCommutes(entries: seq<Entry>)
    ensures Values(Sort(entries, EntryKey())) == Sort(Values(entries), ValueKey())
  {
    if entries != [] {
      SortCommutes(entries[1..]);
      InsertCommutes(entries[0], Sort(entries[1..], EntryKey()));
      assert Values(entries)[1..] == Values(entries[1..]);
    }
  }

  /** What the store reports as values is what `reduceEvents` predicts, checksum included. */
  lemma ReductionsAgree(instanceId: string, events: seq<Event>)
    ensures Values(ReduceEntries(events)) == ReduceValues(events)
    ensures StoreChecksum(instanceId, events) == ChecksumOf(instanceId, |events|, ReduceValues(events))
    ensures StoreChecksum(instanceId, events) == ViewChecksum(instanceId, |events|, ReduceValues(events))
  {
    FoldCommutes(events);
    SortCommutes(Fold(events, EntryOf, EntryKey()));
    SortSorts(Fold(events, ValueOfEvent, ValueKey()), ValueKey());
    SortKeepsSorted(ReduceValues(events), ValueKey());
  }
}
