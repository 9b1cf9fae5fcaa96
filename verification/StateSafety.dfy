/** Ledger, head and history agree over every run, views are immutable, and the outbox is fenced. */
module StateSafety {
  import opened Canonical
  import opened StateViews
  import opened StateProtocol

  /******* Ledger, head and history *******/

  /** What the events up to `revision` reduce to. */
  function LedgerChecksum(instanceId: string, events: seq<Event>, revision: nat): ViewChecksum
    requires revision <= |events|
  {
    StoreChecksum(instanceId, events[..revision])
  }

  predicate RowMatches(instanceId: string, events: seq<Event>, revision: nat, version: ViewVersion,
                       checksum: ViewChecksum)
  {
    && revision <= |events|
    && checksum == LedgerChecksum(instanceId, events, revision)
    && version == ViewVersion(revision, checksum)
  }

  ghost predicate HistoryMatches(s: Store) {
    && (forall r: nat :: r in s.history <==> 0 <= r <= |s.events|)
    && forall r | r in s.history :: RowMatches(s.instanceId, s.events, r, s.history[r].version, s.history[r].checksum)
  }

  ghost predicate Inv(s: Store) {
    && NumberedFromOne(s.events)
    && s.head.activeSeq == |s.events|
    && RowMatches(s.instanceId, s.events, s.head.activeSeq, s.head.version, s.head.checksum)
    && HistoryMatches(s)
  }

  /******* Selecting rows *******/

  lemma {:induction false} RowsAreAPrefix(events: seq<Event>, from: nat, revision: int)
    requires forall i | 0 <= i < |events| :: events[i].seqNo == from + i + 1
    requires from <= revision
    ensures RowsUpTo(events, revision) == if revision >= from + |events| then events else events[..revision - from]
  {
    if events != [] {
      if revision == from {
        RowsBeyond(events[1..], revision);
      } else {
        RowsAreAPrefix(events[1..], from + 1, revision);
      }
      assert events == [events[0]] + events[1..];
    }
  }

  lemma {:induction false} RowsBeyond(events: seq<Event>, revision: int)
    requires forall i | 0 <= i < |events| :: events[i].seqNo > revision
    ensures RowsUpTo(events, revision) == []
  {
    if events != [] { RowsBeyond(events[1..], revision); }
  }

  lemma ChecksumIsLedgers(s: Store, revision: nat)
    requires NumberedFromOne(s.events) && revision <= |s.events|
    ensures RowsUpTo(s.events, revision) == s.events[..revision]
    ensures ChecksumAt(s, revision) == LedgerChecksum(s.instanceId, s.events, revision)
  {
    RowsAreAPrefix(s.events, 0, revision);
  }

  /** Appending events changes no earlier row. */
  lemma AppendingKeepsRow(instanceId: string, events: seq<Event>, more: seq<Event>, revision: nat, v: ViewVersion,
                          c: ViewChecksum)
    requires RowMatches(instanceId, events, revision, v, c)
    ensures RowMatches(instanceId, events + more, revision, v, c)
  {
    assert (events + more)[..revision] == events[..revision];
  }

  /******* Preservation *******/

  lemma InitializedInv(instanceId: string, now: string)
    ensures Inv(Initialized(instanceId, now))
  {}

  lemma AppendingKeepsInv(s: Store, t: Store, e: Event, row: HistoryRow)
    requires Inv(s) && t.instanceId == s.instanceId && e.seqNo == |s.events| + 1 && t.events == s.events + [e]
    requires row.checksum == ChecksumAt(t, |t.events|) && row.version == ViewVersion(|t.events|, row.checksum)
    requires t.history == s.history[|t.events| := row]
    requires t.head.activeSeq == |t.events| && t.head.version == row.version && t.head.checksum == row.checksum
    ensures Inv(t)
  {
    var n := |t.events|;
    ChecksumIsLedgers(t, n);
    hide LedgerChecksum, ChecksumAt;
    forall r | r in t.history
      ensures RowMatches(t.instanceId, t.events, r, t.history[r].version, t.history[r].checksum)
    {
      if r != n { AppendingKeepsRow(s.instanceId, s.events, [e], r, s.history[r].version, s.history[r].checksum); }
    }
  }

  /** What a correction writes, when it writes anything. */
  lemma CorrectionWrites(s: Store, c: Correction)
    ensures var (t, reply) := Correct(s, c);
            if reply != Ok(Created) then t == s
            else
              && c.event.seqNo == s.head.activeSeq + 1
              && t.instanceId == s.instanceId && t.events == s.events + [c.event]
              && var row := HistoryRowAt(t, s.head.activeSeq + 1, c.createdAt);
                 t.history == s.history[s.head.activeSeq + 1 := row]
                 && t.head == Head(s.head.activeSeq + 1, row.version, row.checksum, c.createdAt)
  {}

  lemma CorrectKeepsInv(s: Store, c: Correction)
    requires Inv(s)
    ensures Inv(Correct(s, c).0)
  {
    CorrectionWrites(s, c);
    var (t, reply) := Correct(s, c);
    if reply == Ok(Created) {
      hide Correct, ChecksumAt, RowMatches;
      AppendingKeepsInv(s, t, c.event, HistoryRowAt(t, s.head.activeSeq + 1, c.createdAt));
    }
  }

  /** Only the ledger tables matter to the invariant. */
  lemma SameLedgerKeepsInv(s: Store, t: Store)
    requires Inv(s)
    requires t.instanceId == s.instanceId && t.events == s.events && t.head == s.head && t.history == s.history
    ensures Inv(t)
  {}

  /** History while an import adds rows for `events[..k]`. */
  ghost predicate HistoryUpTo(s: Store, history: History, k: nat) {
    && (forall r: nat :: r in history <==> 0 <= r <= k)
    && (forall r | r in history :: RowMatches(s.instanceId, s.events, r, history[r].version, history[r].checksum))
  }

  lemma {:induction false} AddingHistory(s: Store, history: History, k: nat, activatedAt: string)
    requires NumberedFromOne(s.events) && k <= |s.events| && HistoryUpTo(s, history, k)
    ensures var added := AddHistory(s, history, s.events[k..], activatedAt);
            added.Some? && HistoryUpTo(s, added.value, |s.events|)
            && (forall r | r in history :: r in added.value && added.value[r] == history[r])
            && (forall r | r in added.value && r !in history :: added.value[r].activatedAt == activatedAt)
    decreases |s.events| - k
  {
    hide LedgerChecksum, ChecksumAt;
    if k < |s.events| {
      var rest := s.events[k..];
      assert rest[0].seqNo == k + 1 && rest[1..] == s.events[k + 1..];
      ChecksumIsLedgers(s, k + 1);
      AddingHistory(s, history[k + 1 := HistoryRowAt(s, k + 1, activatedAt)], k + 1, activatedAt);
    } else {
      assert s.events[k..] == [];
    }
  }

  /** What `reduceEvents` predicts is the ledger's own row. */
  lemma PredictionMatches(instanceId: string, events: seq<Event>, createdAt: string)
    ensures var v := ReduceEvents(instanceId, events, createdAt);
            && RowMatches(instanceId, events, |events|, v.version, v.checksum)
            && v.activeSeq == |events|
            && v.values == Values(ReduceEntries(events))
            && Sort(v.values, ValueKey()) == v.values
  {
    ReductionsAgree(instanceId, events);
    SortSorts(Fold(events, ValueOfEvent, ValueKey()), ValueKey());
    SortKeepsSorted(ReduceValues(events), ValueKey());
    assert events[..|events|] == events;
  }

  /** What an import writes, when it writes anything. */
  lemma ImportWrites(s: Store, m: Manifest, accepted: bool)
    requires Inv(s)
    ensures var (t, reply) := Import(s, m, accepted);
            var b := m.body;
            if reply != Ok(true) then t == s
            else
              && s.events == [] && NumberedFromOne(b.events) && b.instanceId == s.instanceId
              && b.expectedView == ReduceEvents(s.instanceId, b.events, b.createdAt)
              && b.expectedHead == HeadFromView(b.expectedView)
              && t.instanceId == s.instanceId && t.events == b.events && t.head == b.expectedHead
              && var history := AddHistory(s.(events := b.events), s.history, b.events, b.createdAt);
                 history.Some? && t.history == if |b.events| in history.value then history.value else t.history
  {}

  lemma EmptyHistoryIsAStart(s: Store, events: seq<Event>)
    requires Inv(s) && s.events == []
    ensures HistoryUpTo(s.(events := events), s.history, 0)
  {}

  lemma PredictedHeadMatches(instanceId: string, events: seq<Event>, createdAt: string)
    ensures var head := HeadFromView(ReduceEvents(instanceId, events, createdAt));
            && head.activeSeq == |events| && head.activatedAt == createdAt
            && RowMatches(instanceId, events, |events|, head.version, head.checksum)
  {
    PredictionMatches(instanceId, events, createdAt);
    hide RowMatches;
  }

  lemma ImportKeepsInv(s: Store, m: Manifest, accepted: bool)
    requires Inv(s)
    ensures Inv(Import(s, m, accepted).0)
  {
    ImportWrites(s, m, accepted);
    hide Import, AddHistory, RowMatches, ReduceEvents, HeadFromView;
    var (t, reply) := Import(s, m, accepted);
    if reply == Ok(true) {
      var b := m.body;
      EmptyHistoryIsAStart(s, b.events);
      PredictedHeadMatches(s.instanceId, b.events, b.createdAt);
      assert b.events[0..] == b.events;
      AddingHistory(s.(events := b.events), s.history, 0, b.createdAt);
    }
  }

  lemma CallKeepsInv(s: Store, c: Call)
    requires Inv(s)
    ensures Inv(Perform(s, c))
  {
    hide Inv;
    match c
    case ImportCall(m, accepted) => ImportKeepsInv(s, m, accepted);
    case CorrectCall(correction) => CorrectKeepsInv(s, correction);
    case ApplyCall(i) =>
      CorrectKeepsInv(s, CorrectionFor(i, s.instanceId));
      hide Correct, CorrectionFor, ViewAt, ApplyError;
    case _ => SameLedgerKeepsInv(s, Perform(s, c));
  }

  /******* Main results: the ledger *******/

  /**
   Over every run: sequence numbers are exactly 1..active_seq, and the head and each history row 0..active_seq
   carry the checksum and version that `#reduceView` computes at that revision.
   */
  lemma {:induction false} LedgerHeadAndHistoryAgree(s: Store, calls: seq<Call>)
    requires Inv(s)
    ensures var t := Run(s, calls);
            && Inv(t)
            && (forall i | 0 <= i < |t.events| :: t.events[i].seqNo == i + 1) && t.head.activeSeq == |t.events|
            && t.head.checksum == ChecksumAt(t, t.head.activeSeq)
            && t.head.version == ViewVersion(t.head.activeSeq, t.head.checksum)
            && (forall r: nat :: r in t.history <==> r <= t.head.activeSeq)
            && (forall r | r in t.history ::
                  t.history[r].checksum == ChecksumAt(t, r)
                    && t.history[r].version == ViewVersion(r, t.history[r].checksum))
    decreases |calls|
  {
    if calls != [] {
      CallKeepsInv(s, calls[0]);
      hide Perform, Inv;
      LedgerHeadAndHistoryAgree(Perform(s, calls[0]), calls[1..]);
    } else {
      InvMeans(s);
    }
  }

  lemma InvMeans(s: Store)
    requires Inv(s)
    ensures (forall i | 0 <= i < |s.events| :: s.events[i].seqNo == i + 1) && s.head.activeSeq == |s.events|
    ensures s.head.checksum == ChecksumAt(s, s.head.activeSeq)
    ensures s.head.version == ViewVersion(s.head.activeSeq, s.head.checksum)
    ensures forall r: nat :: r in s.history <==> r <= s.head.activeSeq
    ensures forall r | r in s.history ::
              s.history[r].checksum == ChecksumAt(s, r) && s.history[r].version == ViewVersion(r, s.history[r].checksum)
  {
    hide LedgerChecksum, ChecksumAt;
    ChecksumIsLedgers(s, s.head.activeSeq);
    forall r | r in s.history
      ensures s.history[r].checksum == ChecksumAt(s, r) && s.history[r].version == ViewVersion(r, s.history[r].checksum)
    {
      assert RowMatches(s.instanceId, s.events, r, s.history[r].version, s.history[r].checksum);
      ChecksumIsLedgers(s, r);
    }
  }
}
