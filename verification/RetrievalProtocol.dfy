/**
 The retrieval paths an instance manages in its host's configuration (`src/openclaw/consumption.ts`): capture, apply
 and restore over the host's path list and an ownership record.  The list and the record are written atomically.
 */
module RetrievalProtocol {
  import opened Options

  /** A path as written in the configuration, and what it resolves to. */
  datatype Path = Path(raw: string, resolved: string)

  datatype Durable = Durable(paths: seq<Path>, ownership: Option<seq<Path>>)

  datatype Process = Process(d: Durable, life: nat) {
    predicate Alive() { life > 0 }
  }

  datatype Snapshot = Snapshot(paths: seq<Path>, managed: seq<Path>)

  /** `removes` and `preserves` are the resolved paths of the cutover plan, empty without one. */
  datatype Target = Target(directory: Path, removes: set<string>, preserves: set<string>)

  function Effect(p: Process, d: Durable): Process { if p.life == 0 then p else Process(d, p.life - 1) }

  function WriteOwnership(p: Process, paths: seq<Path>): Process { Effect(p, p.d.(ownership := Some(paths))) }

  function WritePaths(p: Process, paths: seq<Path>): Process { Effect(p, p.d.(paths := paths)) }

  /** `#loadOwnership`: a missing record owns nothing. */
  function Managed(d: Durable): seq<Path> { if d.ownership.Some? then d.ownership.value else [] }

  function Resolved(paths: seq<Path>): set<string> { set p | p in paths :: p.resolved }

  function Resolve(p: Path): Path { Path(p.resolved, p.resolved) }

  /** The paths that do not resolve into `drop`, in order. */
  function Keep(paths: seq<Path>, drop: set<string>): seq<Path> {
    if paths == [] then []
    else (if paths[0].resolved in drop then [] else [paths[0]]) + Keep(paths[1..], drop)
  }

  function Capture(d: Durable): Snapshot { Snapshot(d.paths, Managed(d)) }

  /** `applyTarget`: the record first, then the list; `writes` is whether the host takes the new list. */
  function ApplyTarget(p: Process, t: Target, writes: bool): (Process, bool) {
    var owned := WriteOwnership(p, [Resolve(t.directory)]);
    if !(t.preserves <= Resolved(p.d.paths)) || !writes then (owned, false)
    else
      (WritePaths(owned, Keep(p.d.paths, Resolved(Managed(p.d)) + t.removes) + [Resolve(t.directory)]), true)
  }

  function RestoredPaths(s: Snapshot, d: Durable): seq<Path> {
    s.paths + Keep(Keep(d.paths, Resolved(Managed(d))), Resolved(s.paths))
  }

  /** `restore`: the list first, then the record. */
  function Restore(p: Process, s: Snapshot, writes: bool): (Process, bool) {
    if !writes then (p, false)
    else (WriteOwnership(WritePaths(p, RestoredPaths(s, p.d)), s.managed), true)
  }

  /** Somebody else adds a path, anywhere in the list. */
  datatype Edit = Edit(at: nat, path: Path)

  function Insert(paths: seq<Path>, e: Edit): seq<Path> {
    var i := if e.at <= |paths| then e.at else |paths|;
    paths[..i] + [e.path] + paths[i..]
  }

  function EditAll(d: Durable, edits: seq<Edit>): Durable
    decreases |edits|
  {
    if edits == [] then d else EditAll(d.(paths := Insert(d.paths, edits[0])), edits[1..])
  }

  function Added(edits: seq<Edit>): seq<Path> { if edits == [] then [] else [edits[0].path] + Added(edits[1..]) }
}
