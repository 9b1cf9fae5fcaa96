/** What an undisturbed apply or restore of retrieval paths reports and leaves, path by path. */
module RetrievalDecisions {
  import opened Options
  import opened RetrievalProtocol
  import opened RetrievalSafety

  /** Some path of the list resolves there. */
  predicate ResolvedIn(paths: seq<Path>, resolved: string) { exists p | p in paths :: p.resolved == resolved }

  /** An undisturbed apply succeeds exactly when every preserved path is there and the host takes the list. */
  lemma AppliesExactly(d: Durable, t: Target, writes: bool, life: nat)
    requires life >= 2
    ensures var (p, ok) := ApplyTarget(Process(d, life), t, writes);
            && (ok <==> writes && forall resolved | resolved in t.preserves :: ResolvedIn(d.paths, resolved))
            && p.d.ownership == Some([Path(t.directory.resolved, t.directory.resolved)])
            && (!ok ==> p.d.paths == d.paths)
            && (ok ==> forall x :: x in p.d.paths <==>
                  || x == Path(t.directory.resolved, t.directory.resolved)
                  || (x in d.paths && x.resolved !in t.removes
                      && !(d.ownership.Some? && ResolvedIn(d.ownership.value, x.resolved))))
  {
    var drop := Resolved(Managed(d)) + t.removes;
    KeptPaths(d.paths, drop);
    forall resolved ensures resolved in Resolved(d.paths) <==> ResolvedIn(d.paths, resolved) {}
    forall resolved ensures resolved in Resolved(Managed(d)) <==> ResolvedIn(Managed(d), resolved) {}
  }

  /** An undisturbed restore succeeds exactly when the host takes the list, and otherwise changes nothing. */
  lemma RestoresExactly(d: Durable, s: Snapshot, writes: bool, life: nat)
    requires life >= 2
    ensures var (p, ok) := Restore(Process(d, life), s, writes);
            && (ok <==> writes) && (!ok ==> p.d == d)
            && (ok ==> p.d.ownership == Some(s.managed) && s.paths <= p.d.paths
                       && forall x :: x in p.d.paths <==>
                            || x in s.paths
                            || (x in d.paths && !ResolvedIn(s.paths, x.resolved)
                                && !(d.ownership.Some? && ResolvedIn(d.ownership.value, x.resolved))))
  {
    var kept := Keep(d.paths, Resolved(Managed(d)));
    KeptPaths(d.paths, Resolved(Managed(d)));
    KeptPaths(kept, Resolved(s.paths));
    forall resolved ensures resolved in Resolved(s.paths) <==> ResolvedIn(s.paths, resolved) {}
    forall resolved ensures resolved in Resolved(Managed(d)) <==> ResolvedIn(Managed(d), resolved) {}
  }
}
