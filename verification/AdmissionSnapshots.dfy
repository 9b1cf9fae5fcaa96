/** The stored form of the admission maps: `#createSnapshot`, `#restoreSnapshot`, and what makes them inverse. */
module AdmissionSnapshots {
  import opened Options
  import opened AdmissionProtocol
  import opened AdmissionSafety

  datatype CandidateRow = CandidateRow(authorizationId: string, revisions: seq<Revision>)

  datatype Snapshot = Snapshot(authorizations: seq<(string, Authorization)>, candidates: seq<(string, CandidateRow)>,
                               targets: seq<(Target, string)>, confirmations: seq<(string, Confirmation)>,
                               receipts: seq<(string, ReceiptRecord)>)

  /** Setting the entries of a list one after the other. */
  function MapOf<K, V>(entries: seq<(K, V)>): map<K, V> {
    if entries == [] then map[]
    else
      var last := entries[|entries| - 1];
      MapOf(entries[..|entries| - 1])[last.0 := last.1]
  }

  predicate DistinctKeys<K(==), V>(entries: seq<(K, V)>) {
    forall i, j | 0 <= i < j < |entries| :: entries[i].0 != entries[j].0
  }

  lemma {:induction false} MapOfKeys<K, V>(entries: seq<(K, V)>)
    ensures forall k :: k in MapOf(entries) <==> exists i :: 0 <= i < |entries| && entries[i].0 == k
    ensures forall k | k in MapOf(entries) :: exists i :: 0 <= i < |entries| && entries[i] == (k, MapOf(entries)[k])
  {
    if entries != [] {
      var n := |entries| - 1;
      MapOfKeys(entries[..n]);
      forall k | k in MapOf(entries)
        ensures exists i :: 0 <= i < |entries| && entries[i] == (k, MapOf(entries)[k])
      {
        if k == entries[n].0 {
          assert entries[n] == (k, MapOf(entries)[k]);
        } else {
          var i :| 0 <= i < n && entries[..n][i] == (k, MapOf(entries[..n])[k]);
          assert entries[i] == (k, MapOf(entries)[k]);
        }
      }
      forall i | 0 <= i < |entries| ensures entries[i].0 in MapOf(entries) {
        if i < n { assert entries[..n][i].0 in MapOf(entries[..n]); }
      }
    }
  }

  lemma MapOfAppended<K, V>(entries: seq<(K, V)>, k: K, v: V)
    ensures MapOf(entries + [(k, v)]) == MapOf(entries)[k := v]
  {}

  /** `[...map.entries()]`, in some order. */
  method Entries<K(==), V>(m: map<K, V>) returns (entries: seq<(K, V)>)
    ensures MapOf(entries) == m && DistinctKeys(entries)
  {
    entries := [];
    var pending := m.Keys;
    while pending != {}
      invariant pending <= m.Keys
      invariant MapOf(entries) == m - pending
      invariant DistinctKeys(entries)
      invariant forall i | 0 <= i < |entries| :: entries[i].0 in m && entries[i].0 !in pending
      decreases |pending|
    {
      var k :| k in pending;
      MapOfAppended(entries, k, m[k]);
      assert (m - pending)[k := m[k]] == m - (pending - {k});
      entries, pending := entries + [(k, m[k])], pending - {k};
    }
  }

  /** The other way: an empty map set entry by entry. */
  method Refill<K(==), V>(entries: seq<(K, V)>) returns (m: map<K, V>)
    ensures m == MapOf(entries)
  {
    m := map[];
    for i := 0 to |entries|
      invariant m == MapOf(entries[..i])
    {
      var (k, v) := entries[i];
      MapOfAppended(entries[..i], k, v);
      assert entries[..i + 1] == entries[..i] + [(k, v)];
      m := m[k := v];
    }
    assert entries[..|entries|] == entries;
  }

  function RowsOf(s: State): map<string, CandidateRow> {
    map c | c in s.candidates :: CandidateRow(if c in s.owners then s.owners[c] else "", s.candidates[c])
  }

  function OwnersIn(rows: map<string, CandidateRow>): map<string, string> {
    map c | c in rows :: rows[c].authorizationId
  }

  function RevisionsIn(rows: map<string, CandidateRow>): Candidates { map c | c in rows :: rows[c].revisions }

  lemma NoRows()
    ensures MapOf<string, CandidateRow>([]) == map[] && RevisionsIn(map[]) == map[] && OwnersIn(map[]) == map[]
  {}

  lemma RowAppended(rows: map<string, CandidateRow>, c: string, row: CandidateRow)
    ensures RevisionsIn(rows[c := row]) == RevisionsIn(rows)[c := row.revisions]
    ensures OwnersIn(rows[c := row]) == OwnersIn(rows)[c := row.authorizationId]
  {}

  /** `#restoreSnapshot`, with `None` for its throws. */
  function Restore(s: Snapshot): Option<State> {
    var authorizations := MapOf(s.authorizations);
    var rows := MapOf(s.candidates);
    if (exists c | c in s.candidates :: c.1.authorizationId == "" || c.1.authorizationId !in authorizations)
       || (exists t | t in s.targets :: t.1 !in rows)
       || (exists c | c in s.confirmations :: c.1.authorizationId !in authorizations)
       || (exists r | r in s.receipts :: r.1.authorizationId !in authorizations)
       || !DistinctKeys(s.confirmations) || !DistinctKeys(s.receipts)
    then None
    else
      Some(State(authorizations, RevisionsIn(rows), OwnersIn(rows), MapOf(s.targets), MapOf(s.confirmations),
                 MapOf(s.receipts)))
  }

  /** Every record hangs off a known authorization or candidate. */
  predicate Rooted(s: State) {
    && "" !in s.authorizations
    && s.owners.Keys == s.candidates.Keys
    && (forall c | c in s.owners :: s.owners[c] in s.authorizations)
    && (forall t | t in s.targets :: s.targets[t] in s.candidates)
    && (forall t | t in s.confirmations :: s.confirmations[t].authorizationId in s.authorizations)
    && (forall r | r in s.receipts :: s.receipts[r].authorizationId in s.authorizations)
  }

  /** `x` lists the maps of `s`, each in some order. */
  predicate Lists(x: Snapshot, s: State) {
    && MapOf(x.authorizations) == s.authorizations
    && MapOf(x.candidates) == RowsOf(s)
    && MapOf(x.targets) == s.targets
    && MapOf(x.confirmations) == s.confirmations && DistinctKeys(x.confirmations)
    && MapOf(x.receipts) == s.receipts && DistinctKeys(x.receipts)
    && DistinctKeys(x.candidates) && DistinctKeys(x.targets)
  }

  lemma {:induction false} EntriesAreInMap<K, V>(entries: seq<(K, V)>)
    requires DistinctKeys(entries)
    ensures forall e | e in entries :: e.0 in MapOf(entries) && MapOf(entries)[e.0] == e.1
  {
    MapOfKeys(entries);
    forall i | 0 <= i < |entries|
      ensures entries[i].0 in MapOf(entries) && MapOf(entries)[entries[i].0] == entries[i].1
    {
      var j :| 0 <= j < |entries| && entries[j] == (entries[i].0, MapOf(entries)[entries[i].0]);
      assert i == j;
    }
  }

  lemma RowsRestore(rows: seq<(string, CandidateRow)>, s: State)
    requires Rooted(s) && MapOf(rows) == RowsOf(s) && DistinctKeys(rows)
    ensures forall c | c in rows :: c.1.authorizationId != "" && c.1.authorizationId in s.authorizations
    ensures OwnersIn(RowsOf(s)) == s.owners && RevisionsIn(RowsOf(s)) == s.candidates
  {
    EntriesAreInMap(rows);
    hide MapOf;
  }

  /** Restoring what was stored gives the same maps back, whatever order they were listed in. */
  lemma SnapshotRoundTrip(x: Snapshot, s: State)
    requires Rooted(s) && Lists(x, s)
    ensures Restore(x) == Some(s)
  {
    RowsRestore(x.candidates, s);
    EntriesAreInMap(x.targets);
    EntriesAreInMap(x.confirmations);
    EntriesAreInMap(x.receipts);
    hide MapOf, DistinctKeys, OwnersIn, RevisionsIn;
  }

  /******* What is restored *******/

  predicate Listed<K(==), V>(entries: seq<(K, V)>, k: K) { exists i :: 0 <= i < |entries| && entries[i].0 == k }

  /** The map has the listed keys, each with what is listed last for it. */
  ghost predicate HoldsLast<K, V>(entries: seq<(K, V)>, m: map<K, V>) {
    && (forall k | k in m :: Listed(entries, k)) && (forall i | 0 <= i < |entries| :: entries[i].0 in m)
    && forall i | 0 <= i < |entries| && !Listed(entries[i + 1..], entries[i].0) ::
         entries[i].0 in m && m[entries[i].0] == entries[i].1
  }

  lemma {:induction false} MapHoldsLast<K, V>(entries: seq<(K, V)>)
    ensures HoldsLast(entries, MapOf(entries))
  {
    MapOfKeys(entries);
    if entries != [] {
      var n, m := |entries| - 1, MapOf(entries);
      MapHoldsLast(entries[..n]);
      forall i | 0 <= i < |entries| && !Listed(entries[i + 1..], entries[i].0)
        ensures entries[i].0 in m && m[entries[i].0] == entries[i].1
      {
        if i < n {
          assert entries[i + 1..][n - i - 1] == entries[n] && entries[n].0 != entries[i].0;
          var rest := entries[..n][i + 1..];
          assert forall j | 0 <= j < |rest| :: rest[j] == entries[i + 1..][j];
          assert entries[..n][i] == entries[i] && !Listed(rest, entries[i].0);
        }
      }
    }
  }

  lemma KeysAreListed<K, V>(entries: seq<(K, V)>)
    ensures forall k :: k in MapOf(entries) <==> Listed(entries, k)
  {
    MapOfKeys(entries);
  }

  /** A row restores exactly when what it refers to is in it and neither tokens nor receipt ids repeat. */
  ghost predicate Complete(x: Snapshot) {
    && (forall c | c in x.candidates :: c.1.authorizationId != "" && Listed(x.authorizations, c.1.authorizationId))
    && (forall t | t in x.targets :: Listed(x.candidates, t.1))
    && (forall c | c in x.confirmations :: Listed(x.authorizations, c.1.authorizationId))
    && (forall r | r in x.receipts :: Listed(x.authorizations, r.1.authorizationId))
    && (forall i, j | 0 <= i < j < |x.confirmations| :: x.confirmations[i].0 != x.confirmations[j].0)
    && (forall i, j | 0 <= i < j < |x.receipts| :: x.receipts[i].0 != x.receipts[j].0)
  }

  /** The maps hold what the row lists; each candidate has an owner and its revisions. */
  lemma RestoresExactly(x: Snapshot)
    ensures Restore(x).Some? <==> Complete(x)
    ensures Complete(x) ==>
              var s := Restore(x).value;
              && HoldsLast(x.authorizations, s.authorizations) && HoldsLast(x.targets, s.targets)
              && HoldsLast(x.confirmations, s.confirmations) && HoldsLast(x.receipts, s.receipts)
              && s.owners.Keys == s.candidates.Keys
              && HoldsLast(x.candidates, map c | c in s.owners && c in s.candidates ::
                                           CandidateRow(s.owners[c], s.candidates[c]))
  {
    MapHoldsLast(x.authorizations);
    MapHoldsLast(x.candidates);
    MapHoldsLast(x.targets);
    MapHoldsLast(x.confirmations);
    MapHoldsLast(x.receipts);
    KeysAreListed(x.authorizations);
    KeysAreListed(x.candidates);
    hide MapOf, Listed, HoldsLast;
    if Restore(x).Some? {
      var s, rows := Restore(x).value, MapOf(x.candidates);
      assert rows == map c | c in s.owners && c in s.candidates :: CandidateRow(s.owners[c], s.candidates[c]);
    }
  }

  /******* Rooted over every call *******/

  lemma {:induction false} ApplyKeepsRooted(s: State, op: Operation, e: Environment)
    requires Rooted(s) && (op.Authorize? ==> op.id != "")
    ensures Rooted(Apply(s, op, e).0)
  {
    var t := Apply(s, op, e).0;
    if op.CreateCandidate? { CreatingKeepsRooted(s, op, e); }
    else if op.Consume? || op.Prepare? || op.Finalize? { ResolvingKeepsRooted(s, op, e); }
    else if op.Revise? { RevisingKeepsRooted(s, op, e); }
  }

  lemma CreatingKeepsRooted(s: State, op: Operation, e: Environment)
    requires Rooted(s) && op.CreateCandidate?
    ensures Rooted(Apply(s, op, e).0)
  {}

  lemma RevisingKeepsRooted(s: State, op: Operation, e: Environment)
    requires Rooted(s) && op.Revise?
    ensures Rooted(Apply(s, op, e).0)
  {}

  lemma ResolvingKeepsRooted(s: State, op: Operation, e: Environment)
    requires Rooted(s) && (op.Consume? || op.Prepare? || op.Finalize?)
    ensures Rooted(Apply(s, op, e).0)
  {
    var id := if op.Consume? then op.receiptId else if op.Prepare? then op.receipt.receiptId
      else op.finalization.receiptId;
    ResolvingWritesOneReceipt(s, op, e, id);
    hide Apply;
  }
}
