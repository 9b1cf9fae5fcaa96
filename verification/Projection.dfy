/**
 The stateful parts of `src/personal-data/projection.ts`: the determinism ledger and its map, the consumer's loop
 over payloads, and the loop that collects identity entries.
 */
module Projection {
  import opened Options
  import opened Canonical
  import opened Jcs
  import opened ProjectionModel
  import Spec = ProjectionModel
  import opened ProjectionIdentity

  /******* What a ledger promises *******/

  function AfterClaim(ledger: Ledger, b: Binding): Ledger {
    if Claimable(ledger, b) then ledger[b.sourceRevision := b] else ledger
  }

  function AfterClaims(ledger: Ledger, claims: seq<Binding>): Ledger
    decreases |claims|
  {
    if claims == [] then ledger else AfterClaims(AfterClaim(ledger, claims[0]), claims[1..])
  }

  /** Claim `i` of a run was accepted. */
  predicate Accepted(ledger: Ledger, claims: seq<Binding>, i: nat)
    requires i < |claims|
  {
    Claimable(AfterClaims(ledger, claims[..i]), claims[i])
  }

  lemma {:induction false} BindingsStay(ledger: Ledger, claims: seq<Binding>, sourceRevision: string)
    requires sourceRevision in ledger
    ensures sourceRevision in AfterClaims(ledger, claims)
            && AfterClaims(ledger, claims)[sourceRevision] == ledger[sourceRevision]
    decreases |claims|
  {
    if claims != [] { BindingsStay(AfterClaim(ledger, claims[0]), claims[1..], sourceRevision); }
  }

  lemma {:induction false} ClaimsCompose(ledger: Ledger, a: seq<Binding>, b: seq<Binding>)
    ensures AfterClaims(ledger, a + b) == AfterClaims(AfterClaims(ledger, a), b)
    decreases |a|
  {
    if a == [] {
      assert a + b == b;
    } else {
      assert (a + b)[1..] == a[1..] + b;
      ClaimsCompose(AfterClaim(ledger, a[0]), a[1..], b);
    }
  }

  /** Any two accepted claims on one source revision, however far apart, are the same claim. */
  lemma AcceptedClaimsAgree(ledger: Ledger, claims: seq<Binding>, i: nat, j: nat)
    requires i < j < |claims| && claims[i].sourceRevision == claims[j].sourceRevision
    requires Accepted(ledger, claims, i) && Accepted(ledger, claims, j)
    ensures claims[i] == claims[j]
  {
    var before := AfterClaims(ledger, claims[..i]);
    assert claims[..j] == claims[..i] + ([claims[i]] + claims[i + 1..j]);
    ClaimsCompose(ledger, claims[..i], [claims[i]] + claims[i + 1..j]);
    assert ([claims[i]] + claims[i + 1..j])[1..] == claims[i + 1..j];
    BindingsStay(AfterClaim(before, claims[i]), claims[i + 1..j], claims[i].sourceRevision);
  }

  /** So two publications of one source revision through one ledger are one projection revision. */
  lemma {:induction false} PublicationsAgree(nfc: Text -> Text, ledger: Ledger, a: ProducerInput, claims: seq<Binding>,
                                             b: ProducerInput)
    requires a.origin.sourceRevision == b.origin.sourceRevision
    requires Publish(nfc, ledger, a).1.Ok?
    requires Publish(nfc, AfterClaims(Publish(nfc, ledger, a).0, claims), b).1.Ok?
    ensures var x := Publish(nfc, ledger, a).1.value;
            var y := Publish(nfc, AfterClaims(Publish(nfc, ledger, a).0, claims), b).1.value;
            x.manifest.revision == y.manifest.revision && x.manifest.origin.asOf == y.manifest.origin.asOf
  {
    hide Normalize, Artifacts, AllCanonical, DuplicateError, Sort, Metas, Checksums;
    BindingsStay(Publish(nfc, ledger, a).0, claims, a.origin.sourceRevision);
  }

  class ProjectionDeterminismLedger {
    var bindings: Ledger

    /** A manifest that conflicts with an earlier one makes it throw, and there is no ledger then. */
    constructor (manifests: seq<Manifest>)
      requires AllClaimable(map[], manifests)
      ensures bindings == AfterClaims(map[], BindingsOf(manifests))
    {
      bindings := map[];
      new;
      for i := 0 to |manifests|
        invariant bindings == AfterClaims(map[], BindingsOf(manifests[..i]))
      {
        BindingsOfAppended(manifests[..i], manifests[i]);
        assert manifests[..i + 1] == manifests[..i] + [manifests[i]];
        ClaimsCompose(map[], BindingsOf(manifests[..i]), [BindingOf(manifests[i])]);
        var ok := Claim(BindingOf(manifests[i]));
      }
      assert manifests[..|manifests|] == manifests;
    }

    /** `claim`, with `false` for its throw. */
    method Claim(b: Binding) returns (ok: bool)
      modifies this
      ensures ok <==> Claimable(old(bindings), b)
      ensures bindings == AfterClaim(old(bindings), b)
    {
      if b.sourceRevision in bindings && bindings[b.sourceRevision] != b { return false; }
      bindings := bindings[b.sourceRevision := b];
      return true;
    }

    /** `runProjectionProducerConformance`: the publication is claimed last, and refused when the claim is. */
    method Publish(nfc: Text -> Text, i: ProducerInput) returns (r: Reply<Publication>)
      modifies this
      ensures (bindings, r) == Spec.Publish(nfc, old(bindings), i)
    {
      hide Produce;
      r := Produce(nfc, i);
      if r.Ok? {
        var ok := Claim(BindingOf(r.value.manifest));
        if !ok { r := Refused(SourceNondeterministic); }
      }
    }
  }

  function BindingsOf(manifests: seq<Manifest>): seq<Binding> {
    if manifests == [] then [] else [BindingOf(manifests[0])] + BindingsOf(manifests[1..])
  }

  predicate AllClaimable(ledger: Ledger, manifests: seq<Manifest>)
    decreases |manifests|
  {
    manifests == [] || (Claimable(ledger, BindingOf(manifests[0]))
                        && AllClaimable(AfterClaim(ledger, BindingOf(manifests[0])), manifests[1..]))
  }

  lemma {:induction false} BindingsOfAppended(manifests: seq<Manifest>, m: Manifest)
    ensures BindingsOf(manifests + [m]) == BindingsOf(manifests) + [BindingOf(m)]
  {
    if manifests == [] {
      assert manifests + [m] == [m];
    } else {
      assert (manifests + [m])[1..] == manifests[1..] + [m];
      BindingsOfAppended(manifests[1..], m);
    }
  }

  function Pushed<T>(front: seq<T>, rest: Reply<seq<T>>): Reply<seq<T>> {
    if rest.Ok? then Ok(front + rest.value) else rest
  }

  lemma PushedLaws<T>(front: seq<T>, x: T, rest: Reply<seq<T>>)
    ensures Pushed([], rest) == rest
    ensures Pushed(front, Ok([])) == Ok(front)
    ensures Pushed(front, Pushed([x], rest)) == Pushed(front + [x], rest)
  {
    assert front + [] == front;
    if rest.Ok? {
      assert [] + rest.value == rest.value;
      assert front + ([x] + rest.value) == front + [x] + rest.value;
    }
  }

  /** The consumer's loop: payloads are checked and pushed in manifest order, up to the first that fails. */
  method ConsumePayloads(nfc: Text -> Text, parse: Text -> Option<Json>, origin: Origin, metas: seq<PayloadMeta>,
                         payloads: map<Text, Bytes>)
    returns (r: Reply<seq<Artifact>>)
    ensures r == Spec.ConsumePayloads(nfc, parse, origin, metas, payloads)
  {
    hide PayloadError;
    var pushed: seq<Artifact> := [];
    var i := 0;
    assert metas[0..] == metas;
    ghost var all := Spec.ConsumePayloads(nfc, parse, origin, metas, payloads);
    ghost var none := Artifact([], [], JsonMedia, JsonBytes([]));
    PushedLaws(pushed, none, all);
    while i < |metas|
      invariant 0 <= i <= |metas|
      invariant Spec.ConsumePayloads(nfc, parse, origin, metas, payloads)
                == Pushed(pushed, Spec.ConsumePayloads(nfc, parse, origin, metas[i..], payloads))
    {
      var meta := metas[i];
      assert metas[i..][1..] == metas[i + 1..];
      if meta.path !in payloads { return Refused(PayloadChecksumMismatch); }
      var bytes := payloads[meta.path];
      var error := PayloadError(nfc, parse, origin, meta, bytes);
      if error.Some? { return Refused(error.value); }
      var artifact := Artifact(meta.stableId, meta.path, meta.media, bytes);
      PushedLaws(pushed, artifact, Spec.ConsumePayloads(nfc, parse, origin, metas[i + 1..], payloads));
      pushed := pushed + [artifact];
      i := i + 1;
    }
    PushedLaws(pushed, none, all);
    return Ok(pushed);
  }

  /** The loop over the identity fields that are present. */
  method CollectIdentityEntries(fields: seq<(Text, Option<ContextValue>)>) returns (entries: seq<Entry>)
    ensures entries == FieldEntries(fields)
  {
    entries := [];
    var i := 0;
    assert fields[0..] == fields;
    while i < |fields|
      invariant 0 <= i <= |fields|
      invariant FieldEntries(fields) == entries + FieldEntries(fields[i..])
    {
      assert fields[i..][1..] == fields[i + 1..];
      if fields[i].1.Some? {
        var value := fields[i].1.value;
        entries := entries + [Entry(fields[i].0, Identity, value.content, value.references)];
      }
      i := i + 1;
    }
  }
}
