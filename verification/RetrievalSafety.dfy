/** Path changes are undone exactly after one apply since the capture, and exactly when after two. */
module RetrievalSafety {
  import opened Options
  import opened RetrievalProtocol

  /******* Filtering *******/

  lemma {:induction false} KeepConcatenates(a: seq<Path>, b: seq<Path>, drop: set<string>)
    ensures Keep(a + b, drop) == Keep(a, drop) + Keep(b, drop)
  {
    if a == [] {
      assert a + b == b;
    } else {
      KeepConcatenates(a[1..], b, drop);
      assert (a + b)[1..] == a[1..] + b;
      if a[0].resolved in drop {
        assert Keep(a + b, drop) == Keep(a[1..] + b, drop);
      } else {
        assert Keep(a + b, drop) == [a[0]] + (Keep(a[1..], drop) + Keep(b, drop));
      }
    }
  }

  /** Two filters that agree on every path of the list keep the same. */
  lemma {:induction false} KeepAgrees(paths: seq<Path>, a: set<string>, b: set<string>)
    requires forall p | p in paths :: p.resolved in a <==> p.resolved in b
    ensures Keep(paths, a) == Keep(paths, b)
  {
    if paths != [] {
      assert paths[0] in paths;
      KeepAgrees(paths[1..], a, b);
    }
  }

  lemma {:induction false} KeepTwice(paths: seq<Path>, a: set<string>, b: set<string>)
    ensures Keep(Keep(paths, a), b) == Keep(paths, a + b)
  {
    if paths != [] {
      KeepTwice(paths[1..], a, b);
      KeepConcatenates(if paths[0].resolved in a then [] else [paths[0]], Keep(paths[1..], a), b);
    }
  }

  lemma {:induction false} KeptPaths(paths: seq<Path>, drop: set<string>)
    ensures forall p :: p in Keep(paths, drop) <==> p in paths && p.resolved !in drop
    ensures (forall p | p in paths :: p.resolved !in drop) ==> Keep(paths, drop) == paths
    ensures (forall p | p in paths :: p.resolved in drop) ==> Keep(paths, drop) == []
  {
    if paths != [] {
      assert paths == [paths[0]] + paths[1..];
      assert paths[0] in paths;
      KeptPaths(paths[1..], drop);
    }
  }

  /** What a restore leaves: the captured list, then whatever is neither owned nor captured. */
  lemma RestoredList(s: Snapshot, d: Durable)
    ensures RestoredPaths(s, d) == s.paths + Keep(d.paths, Resolved(Managed(d)) + Resolved(s.paths))
  {
    KeepTwice(d.paths, Resolved(Managed(d)), Resolved(s.paths));
  }

  /******* What an apply keeps *******/

  /** A completed apply keeps every path that is neither owned nor listed for removal, in order, and adds its target. */
  lemma ApplyKeepsOtherPaths(d: Durable, t: Target, life: nat)
    requires ApplyTarget(Process(d, life), t, true).1 && life >= 2
    ensures var after := ApplyTarget(Process(d, life), t, true).0.d;
            && (forall p :: p in after.paths <==>
                  p == Resolve(t.directory)
                    || (p in d.paths && p.resolved !in Resolved(Managed(d)) && p.resolved !in t.removes))
            && after.paths == Keep(d.paths, Resolved(Managed(d)) + t.removes) + [Resolve(t.directory)]
            && Managed(after) == [Resolve(t.directory)]
  {
    KeptPaths(d.paths, Resolved(Managed(d)) + t.removes);
  }

  /******* One apply *******/

  /** Every path the capture and the apply know about, resolved. */
  function Known(d: Durable, t: Target): set<string> {
    Resolved(d.paths) + Resolved(Managed(d)) + {t.directory.resolved} + t.removes
  }

  /** Nobody else's path resolves to one of those. */
  predicate Foreign(d: Durable, t: Target, edits: seq<Edit>) {
    forall e | e in edits :: e.path.resolved !in Known(d, t)
  }

  /** Every path of the list resolves into `base`, or is somebody else's. */
  predicate Clean(paths: seq<Path>, base: set<string>, known: set<string>) {
    forall p | p in paths :: p.resolved in base || p.resolved !in known
  }

  lemma {:induction false} EditingKeeps(d: Durable, edits: seq<Edit>, base: set<string>, known: set<string>)
    requires Clean(d.paths, base, known) && forall e | e in edits :: e.path.resolved !in known
    ensures var after := EditAll(d, edits);
            && after.ownership == d.ownership
            && Clean(after.paths, base, known)
            && multiset(Keep(after.paths, known)) == multiset(Keep(d.paths, known)) + multiset(Added(edits))
    decreases |edits|
  {
    if edits != [] {
      var e := edits[0];
      var i := if e.at <= |d.paths| then e.at else |d.paths|;
      var next := d.(paths := Insert(d.paths, e));
      assert e in edits;
      assert d.paths == d.paths[..i] + d.paths[i..];
      KeepConcatenates(d.paths[..i], d.paths[i..], known);
      KeepConcatenates(d.paths[..i] + [e.path], d.paths[i..], known);
      KeepConcatenates(d.paths[..i], [e.path], known);
      assert Keep([e.path], known) == [e.path];
      assert Added(edits) == [e.path] + Added(edits[1..]);
      EditingKeeps(next, edits[1..], base, known);
    }
  }

  /** After an apply that died anywhere: what is in the list, and who the record says owns it. */
  lemma ApplyingKeeps(d: Durable, c: Durable, t: Target, writes: bool, life: nat)
    requires c.ownership == d.ownership && Clean(c.paths, Resolved(d.paths), Known(d, t))
    ensures var after := ApplyTarget(Process(c, life), t, writes).0.d;
            && Keep(after.paths, Known(d, t)) == Keep(c.paths, Known(d, t))
            && Clean(after.paths, Resolved(d.paths) + Resolved(Managed(after)), Known(d, t))
            && Resolved(Managed(after)) <= Known(d, t)
  {
    var known, drop := Known(d, t), Resolved(Managed(c)) + t.removes;
    KeepTwice(c.paths, drop, known);
    KeepAgrees(c.paths, drop + known, known);
    KeepConcatenates(Keep(c.paths, drop), [Resolve(t.directory)], known);
    KeptPaths(c.paths, drop);
  }

  /**
   After a capture and one apply that died anywhere, with other people adding paths before and after it, a restore
   gives back the captured list in order, followed by exactly the paths the others added, and the record.
   */
  lemma {:induction false} UndoneExactly(d: Durable, before: seq<Edit>, t: Target, writes: bool, life: nat,
                                         after: seq<Edit>, life': nat)
    requires Foreign(d, t, before) && Foreign(d, t, after) && life' >= 2
    ensures var current := EditAll(ApplyTarget(Process(EditAll(d, before), life), t, writes).0.d, after);
            var restored := Restore(Process(current, life'), Capture(d), true).0.d;
            var others := Keep(current.paths, Known(d, t));
            && restored.paths == d.paths + others
            && multiset(others) == multiset(Added(before)) + multiset(Added(after))
            && Managed(restored) == Managed(d)
  {
    var known := Known(d, t);
    KeptPaths(d.paths, known);
    EditingKeeps(d, before, Resolved(d.paths), known);
    var edited := EditAll(d, before);
    ApplyingKeeps(d, edited, t, writes, life);
    var applied := ApplyTarget(Process(edited, life), t, writes).0.d;
    EditingKeeps(applied, after, Resolved(d.paths) + Resolved(Managed(applied)), known);
    RestoringDropsTheKnown(d, t, EditAll(applied, after));
    hide Keep, EditAll, ApplyTarget, RestoredPaths, Resolved, Clean;
  }

  lemma RestoringDropsTheKnown(d: Durable, t: Target, current: Durable)
    requires Clean(current.paths, Resolved(d.paths) + Resolved(Managed(current)), Known(d, t))
    requires Resolved(Managed(current)) <= Known(d, t)
    ensures RestoredPaths(Capture(d), current) == d.paths + Keep(current.paths, Known(d, t))
  {
    RestoredList(Capture(d), current);
    hide Keep, RestoredPaths, Resolved;
    KeepAgrees(current.paths, Resolved(Managed(current)) + Resolved(d.paths), Known(d, t));
  }

  /******* Interrupted restores *******/

  lemma KeepsAll(paths: seq<Path>, drop: set<string>)
    ensures Keep(paths, drop) == paths <==> forall p | p in paths :: p.resolved !in drop
  {
    KeptPaths(paths, drop);
    if Keep(paths, drop) == paths {
      forall p | p in paths ensures p.resolved !in drop { assert p in Keep(paths, drop); }
    }
  }

  /** Restoring over a restored list: the captured part stays, the rest is filtered again. */
  lemma RestoredAgain(s: Snapshot, d: Durable, owned: Option<seq<Path>>)
    ensures var once := Durable(RestoredPaths(s, d), owned);
            var added := Keep(d.paths, Resolved(Managed(d)) + Resolved(s.paths));
            && once.paths == s.paths + added
            && RestoredPaths(s, once) == s.paths + Keep(added, Resolved(Managed(once)) + Resolved(s.paths))
  {
    var once := Durable(RestoredPaths(s, d), owned);
    var again := Resolved(Managed(once)) + Resolved(s.paths);
    RestoredList(s, d);
    RestoredList(s, once);
    KeepConcatenates(s.paths, Keep(d.paths, Resolved(Managed(d)) + Resolved(s.paths)), again);
    KeptPaths(s.paths, again);
  }

  /** Restoring over an interrupted restore gives what an uninterrupted one gives. */
  lemma RestoreIsRerunnable(d: Durable, s: Snapshot, writes: bool, life: nat, life': nat)
    requires life < 2 && life' >= 2
    ensures Restore(Process(Restore(Process(d, life), s, writes).0.d, life'), s, true).0.d
            == Restore(Process(d, life'), s, true).0.d
  {
    var drop := Resolved(Managed(d)) + Resolved(s.paths);
    RestoredAgain(s, d, d.ownership);
    KeptPaths(d.paths, drop);
    KeepsAll(Keep(d.paths, drop), drop);
    hide Keep, Resolved;
  }

  /** A second restore over a completed one changes nothing exactly when nobody added a path the instance owned. */
  lemma RestoreIsIdempotentExactly(d: Durable, s: Snapshot, life: nat)
    requires life >= 2
    ensures var once := Restore(Process(d, life), s, true).0.d;
            Restore(Process(once, life), s, true).0.d == once
            <==> forall p | p in d.paths && p.resolved in Resolved(s.managed) ::
                   p.resolved in Resolved(Managed(d)) || p.resolved in Resolved(s.paths)
  {
    var added := Keep(d.paths, Resolved(Managed(d)) + Resolved(s.paths));
    RestoredAgain(s, d, Some(s.managed));
    KeptPaths(d.paths, Resolved(Managed(d)) + Resolved(s.paths));
    KeepsAll(added, Resolved(s.managed) + Resolved(s.paths));
    hide Keep, Resolved, RestoredPaths;
    var twice := Keep(added, Resolved(s.managed) + Resolved(s.paths));
    assert (s.paths + added)[|s.paths|..] == added && (s.paths + twice)[|s.paths|..] == twice;
    if forall p | p in d.paths && p.resolved in Resolved(s.managed) ::
         p.resolved in Resolved(Managed(d)) || p.resolved in Resolved(s.paths) {
      assert forall p | p in added :: p.resolved !in Resolved(s.managed) + Resolved(s.paths);
    } else {
      var p :| p in d.paths && p.resolved in Resolved(s.managed)
               && p.resolved !in Resolved(Managed(d)) && p.resolved !in Resolved(s.paths);
      assert p in added;
    }
  }

  /******* Two applies *******/

  /** The state two applies since the capture leave, each dying anywhere; the host may refuse either list. */
  function AfterTwo(d: Durable, first: Target, life: nat, second: Target, life': nat, writes: bool, writes': bool)
    : Durable
  {
    ApplyTarget(Process(ApplyTarget(Process(d, life), first, writes).0.d, life'), second, writes').0.d
  }

  /** Concrete run: the second apply dies between its two writes, and the first target is nobody's any more. */
  lemma TwoAppliesLeaveAPath(d: Durable, first: Target, second: Target)
    requires first.preserves <= Resolved(d.paths)
    requires first.directory.resolved !in Resolved(d.paths) && first.directory.resolved != second.directory.resolved
    ensures RestoredPaths(Capture(d), AfterTwo(d, first, 2, second, 1, true, true))
            == d.paths + [Resolve(first.directory)]
  {
    var after := AfterTwo(d, first, 2, second, 1, true, true);
    var kept := Keep(d.paths, Resolved(Managed(d)) + first.removes);
    assert after == Durable(kept + [Resolve(first.directory)], Some([Resolve(second.directory)]));
    RestoredList(Capture(d), after);
    var drop := Resolved(Managed(after)) + Resolved(d.paths);
    KeepConcatenates(kept, [Resolve(first.directory)], drop);
    KeptPaths(d.paths, Resolved(Managed(d)) + first.removes);
    KeptPaths(kept, drop);
  }

  lemma AppliedPaths(d: Durable, t: Target, life: nat, writes: bool)
    ensures var one := ApplyTarget(Process(d, life), t, writes).0.d;
            && (life == 0 ==> one == d)
            && (life > 0 ==> Managed(one) == [Resolve(t.directory)])
            && (life == 1 ==> one.paths == d.paths)
            && (forall p | p in one.paths ::
                  p in d.paths || (p == Resolve(t.directory) && life > 1 && t.preserves <= Resolved(d.paths)))
  {
    KeptPaths(d.paths, Resolved(Managed(d)) + t.removes);
  }

  lemma ResolvedDirectory(p: Path)
    ensures Resolved([Resolve(p)]) == {p.resolved}
  {}

  /** The first target was captured or is the second, or it is refused for a path it must preserve. */
  predicate Undoable(d: Durable, first: Target, second: Target) {
    || first.directory.resolved in Resolved(d.paths)
    || first.directory.resolved == second.directory.resolved
    || !(first.preserves <= Resolved(d.paths))
  }

  /** One crash point at a time: the list after two applies, and what a restore makes of it. */
  lemma TwoAppliesUndone(d: Durable, first: Target, life: nat, second: Target, life': nat, writes: bool, writes': bool)
    requires Undoable(d, first, second)
    ensures RestoredPaths(Capture(d), AfterTwo(d, first, life, second, life', writes, writes')) == d.paths
  {
    var one := ApplyTarget(Process(d, life), first, writes).0.d;
    var two := AfterTwo(d, first, life, second, life', writes, writes');
    AppliedPaths(d, first, life, writes);
    AppliedPaths(one, second, life', writes');
    ResolvedDirectory(first.directory);
    ResolvedDirectory(second.directory);
    RestoredList(Capture(d), two);
    KeptPaths(two.paths, Resolved(Managed(two)) + Resolved(d.paths));
    forall p | p in d.paths ensures p.resolved in Resolved(d.paths) {}
    hide Resolved, Keep, ApplyTarget;
    forall p | p in two.paths ensures p.resolved in Resolved(Managed(two)) + Resolved(d.paths) {
      assert (p == Resolve(second.directory) && life' > 1) || p in one.paths;
      assert p in d.paths || (p == Resolve(first.directory) && life > 1) || p == Resolve(second.directory);
    }
  }

  /**
   Two applies are undone from every crash point, whatever their cutover plans, exactly when the first target was
   captured, is the second, or is refused for a path it must preserve.
   */
  lemma TwoAppliesAreUndoneExactly(d: Durable, first: Target, second: Target)
    ensures (forall life: nat, life': nat, writes: bool, writes': bool ::
             RestoredPaths(Capture(d), AfterTwo(d, first, life, second, life', writes, writes')) == d.paths)
            <==> Undoable(d, first, second)
  {
    if Undoable(d, first, second) {
      forall life: nat, life': nat, writes: bool, writes': bool
        ensures RestoredPaths(Capture(d), AfterTwo(d, first, life, second, life', writes, writes')) == d.paths
      {
        TwoAppliesUndone(d, first, life, second, life', writes, writes');
      }
    } else {
      TwoAppliesLeaveAPath(d, first, second);
      assert RestoredPaths(Capture(d), AfterTwo(d, first, 2, second, 1, true, true)) != d.paths;
    }
  }
}
