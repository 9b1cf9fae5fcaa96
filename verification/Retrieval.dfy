/** The adapter as `src/openclaw/consumption.ts` runs it: the host's list and the record overwritten in place. */
module Retrieval {
  import opened Options
  import opened RetrievalProtocol
  import Spec = RetrievalProtocol
  import opened RetrievalSafety

  class ConsumptionAdapter {
    var paths: seq<Path>
    var ownership: Option<seq<Path>>
    /** Effects this process still performs before it dies. */
    var life: nat

    function Disk(): Durable
      reads this
    {
      Durable(paths, ownership)
    }

    function Current(): Spec.Process
      reads this
    {
      Spec.Process(Disk(), life)
    }

    constructor (d: Durable, life: nat)
      ensures Current() == Spec.Process(d, life)
    {
      paths, ownership, this.life := d.paths, d.ownership, life;
    }

    method WriteOwnership(owned: seq<Path>)
      modifies this`ownership, this`life
      ensures Current() == Spec.WriteOwnership(old(Current()), owned)
    {
      if life > 0 { ownership, life := Some(owned), life - 1; }
    }

    method WritePaths(written: seq<Path>)
      modifies this`paths, this`life
      ensures Current() == Spec.WritePaths(old(Current()), written)
    {
      if life > 0 { paths, life := written, life - 1; }
    }

    /** `existing.filter(...)`. */
    method Filter(all: seq<Path>, drop: set<string>) returns (kept: seq<Path>)
      ensures kept == Keep(all, drop)
    {
      kept := [];
      for i := 0 to |all|
        invariant kept == Keep(all[..i], drop)
      {
        assert all[..i + 1] == all[..i] + [all[i]];
        KeepConcatenates(all[..i], [all[i]], drop);
        if all[i].resolved !in drop { kept := kept + [all[i]]; }
      }
      assert all[..|all|] == all;
    }

    method ApplyTarget(t: Target, writes: bool) returns (ok: bool)
      modifies this
      ensures (Current(), ok) == Spec.ApplyTarget(old(Current()), t, writes)
    {
      hide Resolved;
      var priorManaged := Resolved(Managed(Disk()));
      var existing := paths;
      WriteOwnership([Resolve(t.directory)]);
      if !writes || !(t.preserves <= Resolved(existing)) { return false; }
      var preserved := Filter(existing, priorManaged + t.removes);
      WritePaths(preserved + [Resolve(t.directory)]);
      return true;
    }

    /** `restore`: pushes every unrelated path the captured list does not resolve to, one at a time. */
    method Restore(s: Snapshot, writes: bool) returns (ok: bool)
      modifies this
      ensures (Current(), ok) == Spec.Restore(old(Current()), s, writes)
    {
      hide Resolved;
      if !writes { return false; }
      var unrelated := Filter(paths, Resolved(Managed(Disk())));
      var restored := s.paths;
      var restoredResolved := Resolved(s.paths);
      for i := 0 to |unrelated|
        invariant Current() == old(Current())
        invariant restored == s.paths + Keep(unrelated[..i], restoredResolved)
      {
        assert unrelated[..i + 1] == unrelated[..i] + [unrelated[i]];
        KeepConcatenates(unrelated[..i], [unrelated[i]], restoredResolved);
        if unrelated[i].resolved !in restoredResolved { restored := restored + [unrelated[i]]; }
      }
      assert unrelated[..|unrelated|] == unrelated;
      WritePaths(restored);
      WriteOwnership(s.managed);
      return true;
    }
  }
}
