/** Publication of the pinned runtime into its store: stage, swap, restore on failure.
    Any file operation may fail and the source may change at any time. */
module RuntimeStore {
  import opened Sequences
  import opened Utf8

  type Content = seq<Byte>

  datatype Leaf = RegularLeaf | OtherLeaf

  datatype Node = Regular(bytes: Content) | Link(target: Option<Content>) | Folder(children: map<string, Leaf>)

  /** What stands at the store's path. */
  datatype Place = Absent | LinkPlace | OtherPlace | Store(dir: map<string, Node>)

  datatype Manifest = Manifest(version: string, files: map<string, string>)

  datatype Pin = Pin(schema: string, version: string, digest: string)

  /** Hashing and JSON; parse gives nothing for text that is not a manifest. */
  datatype Tools = Tools(
    hash: Content -> string, digest: Manifest -> string,
    render: Manifest -> Content, parse: Content -> Option<Manifest>)

  const RuntimeSchema := "gsd-path/runtime/v1"
  const ManifestName := "manifest.json"
  const CacheName := "__pycache__"

  // the inventory, in its own order, in pieces of a size that is quick to check
  const PipelineFiles: seq<string> := [
    "pipeline_state.py", "roadmap.py", "check_handoffs.py", "check_task_briefs.py", "isolation.py",
    "discussion_records.py", "pipeline_git.py"]
  const MilestoneFiles: seq<string> := [
    "promote_lookahead.py", "detect_project.py", "pipeline_diagnose.py", "pipeline_undo.py",
    "archive_milestone.py", "review_panel.py", "_common.py"]
  const BuildFiles: seq<string> := [
    "worktree_paths.py", "build_recovery.py", "state_checkpoint.py", "state_promote.py",
    "discussion_validate.py", "integration.py", "build_state.py"]
  const CheckFiles: seq<string> := [
    "lean_verification.py", "check_docs_audit.py", "path_config.py", "model_policy.py", "loop_run.py",
    "members.py", "review_findings.py"]
  const LastFiles: seq<string> := ["task_context.py", "guard_hook.py", "git_guard.py", "status_runtime.py"]

  const RuntimeFiles: seq<string> := PipelineFiles + MilestoneFiles + BuildFiles + CheckFiles + LastFiles

  predicate EndsWith(s: string, suffix: string) {
    |s| >= |suffix| && s[|s| - |suffix|..] == suffix
  }

  predicate PyName(name: string) { '/' !in name && EndsWith(name, ".py") }

  // ----- What a valid store is

  predicate FileOk(t: Tools, dir: map<string, Node>, m: Manifest, name: string)
    requires name in m.files
  {
    PyName(name) && name in dir && dir[name].Regular? && t.hash(dir[name].bytes) == m.files[name]
  }

  /** The suffix of the name is ".pyc"; a name that is nothing else has no suffix. */
  predicate CompiledName(name: string) { EndsWith(name, ".pyc") && name != ".pyc" }

  predicate CacheOk(node: Node) {
    node.Folder? && forall child | child in node.children :: CompiledName(child) && node.children[child].RegularLeaf?
  }

  predicate IdentityOk(t: Tools, dir: map<string, Node>, pin: Pin) {
    && ManifestName in dir && dir[ManifestName].Regular? && t.parse(dir[ManifestName].bytes).Some?
    && var m := t.parse(dir[ManifestName].bytes).value;
    t.digest(m) == pin.digest && m.version == pin.version && "pipeline_state.py" in m.files
  }

  /** The store holds the files of a manifest with the pinned identity, and nothing
      else but compiled caches. */
  predicate ValidDir(t: Tools, dir: map<string, Node>, pin: Pin) {
    IdentityOk(t, dir, pin) && ContentsOk(t, dir, t.parse(dir[ManifestName].bytes).value)
  }

  predicate ContentsOk(t: Tools, dir: map<string, Node>, m: Manifest) {
    FilesOk(t, dir, m) && CacheFits(dir) && dir.Keys - {CacheName} == m.files.Keys + {ManifestName}
  }

  predicate FilesOk(t: Tools, dir: map<string, Node>, m: Manifest) {
    forall name | name in m.files :: FileOk(t, dir, m, name)
  }

  predicate CacheFits(dir: map<string, Node>) { CacheName in dir ==> CacheOk(dir[CacheName]) }

  // The protocol below does not depend on what validity is. So it is stated over a list
  // of one place, which the solver unpacks only where ValidMeans is called.

  ghost predicate AllValid(t: Tools, places: seq<Place>, pin: Pin) {
    forall p {:trigger p in places} | p in places :: p.Store? && ValidDir(t, p.dir, pin)
  }

  ghost predicate AllUncached(places: seq<Place>) { forall p {:trigger p in places} | p in places :: p.Store? && CacheName !in p.dir }

  ghost predicate ValidStore(t: Tools, place: Place, pin: Pin) {
    place.Store? && AllValid(t, [place], pin)
  }

  /** A store as staging makes it: valid, and without the caches a used one gathers. */
  ghost predicate Fresh(t: Tools, place: Place, pin: Pin) {
    ValidStore(t, place, pin) && AllUncached([place])
  }

  lemma ValidMeans(t: Tools, place: Place, pin: Pin)
    ensures ValidStore(t, place, pin) <==> place.Store? && ValidDir(t, place.dir, pin)
    ensures Fresh(t, place, pin) <==> place.Store? && ValidDir(t, place.dir, pin) && CacheName !in place.dir
  {
    assert place in [place];
  }

  /** How many operations it takes to read a valid store: its manifest, the files of the
      manifest and its entries. */
  function Reads(t: Tools, place: Place): nat {
    if place.Store? && ManifestName in place.dir && place.dir[ManifestName].Regular? then
      var m := t.parse(place.dir[ManifestName].bytes);
      1 + (if m.Some? then |m.value.files.Keys| else 0) + |place.dir.Keys|
    else 1
  }

  /** What becomes of the store that was there: it stays, a fresh one takes its place, or
      nothing does. */
  datatype Outcome = Kept | Rebuilt | Gone

  /** What an outcome makes of the place. */
  ghost predicate Shows(outcome: Outcome, t: Tools, pin: Pin, before: Place, after: Place) {
    match outcome
    case Kept => after == before
    case Rebuilt => Fresh(t, after, pin)
    case Gone => after == Absent != before
  }

  // ----- What the source describes

  datatype Source = Source(version: Option<string>, scripts: map<string, Node>)

  predicate Readable(s: Source, names: seq<string>) {
    forall name | name in names :: name in s.scripts && s.scripts[name].Regular?
  }

  /** The manifest of a source that stays as it is. */
  function ManifestOf(t: Tools, s: Source, names: seq<string>): Option<Manifest> {
    if s.version.Some? && Readable(s, names)
    then Some(Manifest(s.version.value, map name | name in names :: t.hash(s.scripts[name].bytes)))
    else None
  }

  function PinOf(t: Tools, m: Manifest): Pin { Pin(RuntimeSchema, m.version, t.digest(m)) }

  /** A staged directory: copies that hash to the manifest, and the manifest. */
  ghost predicate Staged(t: Tools, m: Manifest, names: seq<string>, dir: map<string, Node>) {
    && dir.Keys == (set name | name in names)
    && (forall name | name in names ::
          name in m.files && dir[name].Regular? && t.hash(dir[name].bytes) == m.files[name])
  }

  datatype Failure = Io | SymlinkedSource | Mismatch | UnsafeStorage | SourceChanged | Invalid

  class Machine {
    var destination: Place
    // the inventory
    const names: seq<string>
    const parentSafe: bool
    const source: nat -> Source
    // which operations fail, by their number
    const faults: nat -> bool
    var tick: nat
    ghost var failures: nat
    // the store was moved away, its replacement was refused and so was its return
    ghost var lost: bool
    // a valid store was taken for an invalid one
    ghost var misread: bool

    constructor (destination: Place, parentSafe: bool, source: nat -> Source, faults: nat -> bool)
      ensures this.destination == destination && tick == failures == 0 && !lost && !misread
      ensures names == RuntimeFiles && this.parentSafe == parentSafe && this.source == source && this.faults == faults
    {
      names := RuntimeFiles;
      this.destination, this.parentSafe, this.source, this.faults := destination, parentSafe, source, faults;
      tick, failures, lost, misread := 0, 0, false, false;
    }

    /** How many of the operations before this number fail. */
    ghost function Faults(n: nat): nat {
      if n == 0 then 0 else Faults(n - 1) + if faults(n - 1) then 1 else 0
    }

    /** No operation from one number up to another fails. */
    ghost predicate NoFault(from: nat, to: nat) { Faults(from) == Faults(to) }

    lemma {:induction false} FaultsGrow(from: nat, to: nat)
      requires from <= to
      ensures Faults(from) <= Faults(to)
    {
      if from < to { FaultsGrow(from, to - 1); }
    }

    /** What the count says about each operation. */
    lemma {:induction false} NoFaultMeans(from: nat, to: nat)
      requires from <= to
      ensures NoFault(from, to) <==> forall n | from <= n < to :: !faults(n)
    {
      if from < to {
        NoFaultMeans(from, to - 1);
        FaultsGrow(from, to - 1);
      }
    }

    /** The first operation from one number up to another that fails, or the latter. */
    ghost function NextFault(from: nat, to: nat): (n: nat)
      decreases to - from
    {
      if from >= to then to else if faults(from) then from else NextFault(from + 1, to)
    }

    lemma {:induction false} NextFaultIs(from: nat, n: nat, to: nat)
      requires from <= n <= to && NoFault(from, n) && (n < to ==> faults(n))
      ensures NextFault(from, to) == n
      ensures NoFault(from, to) <==> n == to
      decreases n - from
    {
      FaultsGrow(from, n);
      if from < n {
        FaultsGrow(from + 1, n);
        NextFaultIs(from + 1, n, to);
      } else if n < to {
        FaultsGrow(n + 1, to);
      }
    }

    /** Operations were numbered on, and failures are the faults among them. */
    ghost predicate Counts(tick0: nat, failures0: nat, tick1: nat, failures1: nat) {
      && tick0 <= tick1 && failures0 <= failures1
      && failures1 - failures0 == Faults(tick1) - Faults(tick0)
    }

    /** The source never changes. */
    ghost predicate Stable() {
      forall n: nat :: source(n) == source(0)
    }

    method Fails() returns (f: bool)
      modifies this`tick, this`failures
      ensures f == faults(old(tick)) && tick == old(tick) + 1
      ensures failures == (old(failures) + if f then 1 else 0) && Counts(old(tick), old(failures), tick, failures)
    {
      f := faults(tick);
      tick := tick + 1;
      failures := failures + if f then 1 else 0;
    }

    /** Hash the named files of the source. */
    method HashAll(t: Tools, names: seq<string>) returns (r: Result<map<string, string>, Failure>)
      modifies this`tick, this`failures
      ensures Counts(old(tick), old(failures), tick, failures)
      ensures r.Ok? ==> failures == old(failures) && tick == old(tick) + |names|
      ensures tick <= old(tick) + |names|
      ensures r.Ok? ==> r.value.Keys == set name | name in names
      ensures Stable() && failures == old(failures) ==> (r.Ok? <==> Readable(source(0), names))
      ensures Stable() && r.Ok? && Readable(source(0), names) ==>
                forall name | name in names :: r.value[name] == t.hash(source(0).scripts[name].bytes)
    {
      var files: map<string, string> := map[];
      for i := 0 to |names|
        invariant Counts(old(tick), old(failures), tick, failures) && failures == old(failures) && tick == old(tick) + i
        invariant files.Keys == set name | name in names[..i]
        invariant Stable() ==> forall name | name in names[..i] ::
                    name in source(0).scripts && source(0).scripts[name].Regular?
                    && files[name] == t.hash(source(0).scripts[name].bytes)
      {
        var name := names[i];
        PrefixStep(names, i);
        assert name in names;
        var failed := Fails();
        var scripts := source(tick).scripts;
        assert Stable() ==> source(tick) == source(0);
        if name in scripts && scripts[name].Link? { return Err(SymlinkedSource); }
        if failed || name !in scripts || !scripts[name].Regular? { return Err(Io); }
        files := files[name := t.hash(scripts[name].bytes)];
      }
      assert names[..|names|] == names;
      return Ok(files);
    }

    method ReadManifest(t: Tools, names: seq<string>) returns (r: Result<Manifest, Failure>)
      modifies this`tick, this`failures
      ensures Counts(old(tick), old(failures), tick, failures)
      ensures r.Ok? ==> r.value.files.Keys == set name | name in names
      ensures r.Ok? ==> failures == old(failures) && tick == old(tick) + |names| + 1
      ensures tick <= old(tick) + |names| + 1
      ensures Stable() && failures == old(failures) ==>
                ManifestOf(t, source(0), names) == if r.Ok? then Some(r.value) else None
    {
      var failed := Fails();
      if failed { return Err(Io); }
      var version := source(tick).version;
      assert Stable() ==> source(tick) == source(0);
      if version.None? { return Err(Io); }
      var files := HashAll(t, names);
      if files.Err? { return Err(files.error); }
      assert Stable() && Readable(source(0), names) ==>
          files.value == map name | name in names :: t.hash(source(0).scripts[name].bytes);
      return Ok(Manifest(version.value, files.value));
    }

    /** Accepts only a valid store. Of a valid store, a faultless reading says so, and any
        other stops at the first fault. */
    method Validate(t: Tools, pin: Pin, ghost valid: bool, ghost length: nat) returns (ok: bool)
      requires valid == (parentSafe && ValidStore(t, destination, pin)) && length == Reads(t, destination)
      modifies this`tick, this`failures
      ensures Counts(old(tick), old(failures), tick, failures) && failures <= old(failures) + 1
      ensures ok ==> valid && failures == old(failures) && tick == old(tick) + length
      ensures !ok && valid ==> failures == old(failures) + 1 && old(tick) < tick <= old(tick) + length
      ensures valid ==> NextFault(old(tick), old(tick) + length) == if ok then tick else tick - 1
      ensures valid ==> (ok <==> NoFault(old(tick), old(tick) + length))
    {
      ok := Read(t, pin, valid, length);
      if ok {
        CompletedMeans(old(tick), tick, failures);
      } else if valid {
        StoppedMeans(old(tick), length, tick, old(failures));
      }
    }

    method Read(t: Tools, pin: Pin, ghost valid: bool, ghost length: nat) returns (ok: bool)
      requires valid == (parentSafe && ValidStore(t, destination, pin)) && length == Reads(t, destination)
      modifies this`tick, this`failures
      ensures Counts(old(tick), old(failures), tick, failures) && failures <= old(failures) + 1
      ensures ok ==> valid && failures == old(failures) && tick == old(tick) + length
      ensures !ok && valid ==> Stopped(old(tick), length, tick) && failures == old(failures) + 1
    {
      ValidMeans(t, destination, pin);
      if !parentSafe || !destination.Store? { return false; }
      var dir := destination.dir;
      var failed := Fails();
      if failed || !IdentityOk(t, dir, pin) { return false; }
      ok := ReadContents(t, dir, t.parse(dir[ManifestName].bytes).value);
    }

    /** The last operation failed, one of so many from the first. */
    ghost predicate Stopped(from: nat, length: nat, now: nat) {
      from < now <= from + length && faults(now - 1)
    }

    lemma StoppedMeans(from: nat, length: nat, now: nat, failures0: nat)
      requires Counts(from, failures0, now, failures0 + 1) && Stopped(from, length, now)
      ensures NextFault(from, from + length) == now - 1
      ensures !NoFault(from, from + length)
    {
      NextFaultIs(from, now - 1, from + length);
    }

    lemma CompletedMeans(from: nat, now: nat, failures0: nat)
      requires Counts(from, failures0, now, failures0)
      ensures NextFault(from, now) == now && NoFault(from, now)
    {
      NextFaultIs(from, now, now);
    }

    /** Read the files the manifest names and then the directory. */
    method ReadContents(t: Tools, dir: map<string, Node>, m: Manifest) returns (ok: bool)
      modifies this`tick, this`failures
      ensures Counts(old(tick), old(failures), tick, failures) && failures <= old(failures) + 1
      ensures ok ==> ContentsOk(t, dir, m) && failures == old(failures) && tick == old(tick) + |m.files.Keys| + |dir.Keys|
      ensures ContentsOk(t, dir, m) && !ok ==>
                Stopped(old(tick), |m.files.Keys| + |dir.Keys|, tick) && failures == old(failures) + 1
      ensures !ok && failures == old(failures) ==> !ContentsOk(t, dir, m)
    {
      var filesOk := ReadFiles(t, dir, m);
      if !filesOk { return false; }
      var entries := ReadEntries(dir.Keys, CacheFits(dir));
      return entries == Some(m.files.Keys + {ManifestName});
    }

    /** Hash the files of the manifest, in any order. */
    method ReadFiles(t: Tools, dir: map<string, Node>, m: Manifest) returns (ok: bool)
      modifies this`tick, this`failures
      ensures Counts(old(tick), old(failures), tick, failures) && failures <= old(failures) + 1
      ensures ok ==> FilesOk(t, dir, m) && failures == old(failures) && tick == old(tick) + |m.files.Keys|
      ensures !ok && FilesOk(t, dir, m) ==>
                Stopped(old(tick), |m.files.Keys|, tick) && failures == old(failures) + 1
    {
      var todo := m.files.Keys;
      while todo != {}
        invariant todo <= m.files.Keys && Counts(old(tick), old(failures), tick, failures) && failures == old(failures)
        invariant tick + |todo| == old(tick) + |m.files.Keys|
        invariant forall name | name in m.files.Keys - todo :: FileOk(t, dir, m, name)
      {
        var name :| name in todo;
        var failed := Fails();
        if failed || !FileOk(t, dir, m, name) { return false; }
        todo := todo - {name};
      }
      return true;
    }

    /** The names of the entries apart from the cache, in any order; the cache is looked
        into when it comes up. */
    method ReadEntries(all: set<string>, cacheFits: bool) returns (entries: Option<set<string>>)
      requires CacheName !in all ==> cacheFits
      modifies this`tick, this`failures
      ensures Counts(old(tick), old(failures), tick, failures) && failures <= old(failures) + 1
      ensures entries.Some? ==> failures == old(failures) && tick == old(tick) + |all|
      ensures entries.Some? ==> entries.value == all - {CacheName} && cacheFits
      ensures entries.None? && cacheFits ==>
                Stopped(old(tick), |all|, tick) && failures == old(failures) + 1
    {
      var found: set<string> := {};
      var rest := all;
      while rest != {}
        invariant rest <= all
        invariant forall n {:trigger n in found} :: n in found <==> n in all && n !in rest && n != CacheName
        invariant Counts(old(tick), old(failures), tick, failures) && failures == old(failures)
        invariant tick + |rest| == old(tick) + |all|
        invariant CacheName in rest || cacheFits
      {
        var name :| name in rest;
        var failed := Fails();
        if failed || (name == CacheName && !cacheFits) { return None; }
        if name != CacheName { found := found + {name}; }
        rest := rest - {name};
      }
      return Some(found);
    }

    /** Copy every file and check the copy. */
    method Stage(t: Tools, m: Manifest) returns (r: Result<map<string, Node>, Failure>)
      requires Publishable(t, m, names)
      modifies this`tick, this`failures
      ensures Counts(old(tick), old(failures), tick, failures)
      ensures r.Ok? ==> Fresh(t, Store(r.value), PinOf(t, m))
      ensures r.Ok? ==> tick == old(tick) + StageSteps() && failures == old(failures)
      ensures Steady(t, m) && r.Err? ==>
                Stopped(old(tick), StageSteps(), tick) && failures == old(failures) + 1
    {
      PublishableMeans(t, m, names);
      SteadyMeans(t, m);
      var dir: map<string, Node> := map[];
      var failed := Fails();
      if failed { return Err(Io); }
      for i := 0 to |names|
        invariant Counts(old(tick), old(failures), tick, failures) && failures == old(failures) && tick == old(tick) + 2 * i + 1
        invariant Staged(t, m, names[..i], dir)
      {
        var name := names[i];
        PrefixStep(names, i);
        assert name in names && name in m.files.Keys;
        failed := Fails();
        if failed { return Err(Io); }
        var scripts := source(tick).scripts;
        assert Stable() ==> source(tick) == source(0);
        // the copy follows a link
        var copied := if name in scripts then
                        match scripts[name] case Regular(b) => Some(b) case Link(target) => target case Folder(_) => None
                      else None;
        if copied.None? { return Err(Io); }
        dir := dir[name := Regular(copied.value)];
        failed := Fails();
        if failed { return Err(Io); }
        if t.hash(copied.value) != m.files[name] { return Err(SourceChanged); }
      }
      failed := Fails();
      if failed { return Err(Io); }
      assert names[..|names|] == names;
      StagedIsFresh(t, m, names, dir);
      return Ok(dir[ManifestName := Regular(t.render(m))]);
    }

    /** What becomes of a store when the two moves begin at this operation: the first may
        be refused; if the second is, the store comes back unless that is refused too. */
    ghost function MovesTo(from: nat): Outcome {
      if faults(from) then Kept
      else if !faults(from + 1) then Rebuilt
      else if faults(from + 2) then Gone
      else Kept
    }

    /** The operations of staging: a directory, a copy and a check of each file, the manifest. */
    ghost function StageSteps(): nat { 2 * |names| + 2 }

    /** What becomes of it when staging from a steady source begins at this operation. */
    ghost function RestoresTo(from: nat): Outcome {
      if NoFault(from, from + StageSteps()) then MovesTo(from + StageSteps()) else Kept
    }

    /** What becomes of a valid store when its reading begins at this operation: a faultless
        reading keeps it, after the first fault it is taken for an invalid one. */
    ghost function RepairsTo(from: nat, length: nat): Outcome {
      var n := NextFault(from, from + length);
      if n == from + length then Kept else RestoresTo(n + 1)
    }

    lemma FaultlessReading(from: nat, length: nat)
      requires NextFault(from, from + length) == from + length
      ensures RepairsTo(from, length) == Kept
    {
    }

    lemma FaultyReading(from: nat, length: nat, n: nat)
      requires NextFault(from, from + length) == n < from + length
      ensures RepairsTo(from, length) == RestoresTo(n + 1)
    {
    }

    /** Move the staged directory into place; the previous store comes back when that
        fails, unless its return fails too. */
    method Swap(staged: map<string, Node>) returns (ok: bool, ghost outcome: Outcome)
      requires !destination.LinkPlace?
      modifies this`destination, this`tick, this`failures, this`lost
      ensures Counts(old(tick), old(failures), tick, failures)
      ensures ok <==> outcome.Rebuilt?
      ensures outcome.Rebuilt? ==> destination == Store(staged) && lost == old(lost)
      ensures outcome.Kept? ==> destination == old(destination) && lost == old(lost) && failures > old(failures)
      ensures outcome.Gone? ==> lost && destination == Absent != old(destination) && failures >= old(failures) + 2
      ensures old(destination) != Absent ==> outcome == MovesTo(old(tick))
    {
      if destination != Absent {
        var failed := Fails();
        if failed { return false, Kept; }
        var previous := destination;
        destination := Absent;
        failed := Fails();
        if failed {
          failed := Fails();
          if failed {
            lost := true;
            return false, Gone;
          }
          destination := previous;
          return false, Kept;
        }
      } else {
        var failed := Fails();
        if failed { return false, Kept; }
      }
      destination := Store(staged);
      return true, Rebuilt;
    }

    /** The source is steady and its manifest is m. */
    ghost predicate Steady(t: Tools, m: Manifest) { AllSteady(t, [m]) }

    ghost predicate AllSteady(t: Tools, manifests: seq<Manifest>) {
      forall m {:trigger m in manifests} | m in manifests :: Stable() && ManifestOf(t, source(0), names) == Some(m)
    }

    lemma SteadyMeans(t: Tools, m: Manifest)
      ensures Steady(t, m) <==> Stable() && ManifestOf(t, source(0), names) == Some(m)
    {
      assert m in [m];
    }

    /** Stage the source and swap it in; what stands afterwards is not touched again. */
    method Exchange(t: Tools, m: Manifest) returns (r: Option<Failure>, ghost outcome: Outcome)
      requires Publishable(t, m, names) && !destination.LinkPlace?
      modifies this`destination, this`tick, this`failures, this`lost
      ensures Counts(old(tick), old(failures), tick, failures)
      ensures Shows(outcome, t, PinOf(t, m), old(destination), destination)
      ensures LossOf(outcome, old(lost), lost, old(failures), failures) && (r.None? <==> outcome.Rebuilt?)
      ensures Steady(t, m) && failures == old(failures) ==> r.None?
      ensures Steady(t, m) && old(destination) != Absent ==> outcome == RestoresTo(old(tick))
    {
      var staged := Stage(t, m);
      if staged.Err? {
        if Steady(t, m) { StoppedMeans(old(tick), StageSteps(), tick, old(failures)); }
        return Some(staged.error), Kept;
      }
      CompletedMeans(old(tick), tick, failures);
      var swapped, kind := Swap(staged.value);
      return if swapped then None else Some(Io), kind;
    }

    /** Exchange the store and check the result. */
    method Restore(t: Tools, m: Manifest) returns (r: Result<Pin, Failure>, ghost outcome: Outcome)
      requires Publishable(t, m, names) && !destination.LinkPlace?
      modifies this`destination, this`tick, this`failures, this`lost
      ensures Counts(old(tick), old(failures), tick, failures)
      ensures Shows(outcome, t, PinOf(t, m), old(destination), destination)
      ensures LossOf(outcome, old(lost), lost, old(failures), failures)
      ensures r.Ok? ==> r.value == PinOf(t, m) && outcome.Rebuilt?
      ensures Steady(t, m) && failures == old(failures) && parentSafe ==> r.Ok?
      ensures Steady(t, m) && old(destination) != Absent ==> outcome == RestoresTo(old(tick))
    {
      var exchanged, kind := Exchange(t, m);
      outcome := kind;
      var failed := Fails(); // the temporary directory is removed
      if exchanged.Some? { return Err(exchanged.value), outcome; }
      if failed { return Err(Io), outcome; }
      var ok := Validate(t, PinOf(t, m), parentSafe && ValidStore(t, destination, PinOf(t, m)), Reads(t, destination));
      r := if ok then Ok(PinOf(t, m)) else Err(Invalid);
    }

    /** A store gone is lost, after two failures. */
    ghost predicate LossOf(outcome: Outcome, lost0: bool, lost1: bool, failures0: nat, failures1: nat) {
      lost1 == (lost0 || outcome.Gone?) && (outcome.Gone? ==> failures1 >= failures0 + 2)
    }

    /** The steady source is the expected runtime. */
    ghost predicate Matches(t: Tools, expected: Pin) {
      exists m :: Steady(t, m) && PinOf(t, m) == expected
    }

    lemma OneManifest(t: Tools, m: Manifest, k: Manifest)
      requires Steady(t, m) && Steady(t, k)
      ensures m == k
    {
      SteadyMeans(t, m);
      SteadyMeans(t, k);
    }

    /** The number of the first operation that reads the present store: before it come the
        version, the files of the source and the parent directory. */
    ghost function FirstRead(start: nat): nat { start + |names| + 2 }

    /** What becomes of a valid store that takes so long to read, if publication begins at
        this operation and the steady source matches. */
    ghost function FateFrom(start: nat, length: nat): Outcome {
      if NoFault(start, FirstRead(start)) then RepairsTo(FirstRead(start), length) else Kept
    }

    /** The first failure is one of the reads of the store. */
    ghost predicate Misreads(start: nat, length: nat) {
      NoFault(start, FirstRead(start)) && !NoFault(FirstRead(start), FirstRead(start) + length)
    }

    lemma EarlyFault(start: nat, at: nat, length: nat)
      requires start <= at <= start + |names| + 2 && !NoFault(start, at)
      ensures FateFrom(start, length) == Kept && !Misreads(start, length)
    {
      FaultsGrow(start, at);
      FaultsGrow(at, start + |names| + 2);
    }

    lemma LateFate(start: nat, at: nat, length: nat)
      requires at == start + |names| + 1 && NoFault(start, at)
      ensures FateFrom(start, length) == if faults(at) then Kept else RepairsTo(at + 1, length)
      ensures Misreads(start, length) <==> !faults(at) && !NoFault(at + 1, at + 1 + length)
    {
    }

    /** Publish the source as the expected runtime. */
    method Publish(t: Tools, expected: Pin, dryRun: bool) returns (r: Result<Pin, Failure>)
      requires Inventory(names) && forall m :: t.parse(t.render(m)) == Some(m)
      modifies this
      ensures Counts(old(tick), old(failures), tick, failures)
      // all or nothing under any single failure; only two can lose a store
      ensures failures <= old(failures) + 1 ==> destination == old(destination) || ValidStore(t, destination, expected)
      ensures destination == old(destination) || ValidStore(t, destination, expected) || (lost && destination == Absent)
      ensures lost && !old(lost) ==> failures >= old(failures) + 2 && r.Err? && old(destination) != Absent
      ensures dryRun ==> destination == old(destination)
      ensures r.Ok? ==> r.value == expected && (dryRun || ValidStore(t, destination, expected))
      // what becomes of a valid store is settled beforehand by which operations fail
      ensures parentSafe && !dryRun && Matches(t, expected) && ValidStore(t, old(destination), expected) ==>
                Shows(FateFrom(old(tick), Reads(t, old(destination))), t, expected, old(destination), destination)
      ensures parentSafe && !dryRun && Matches(t, expected) && ValidStore(t, old(destination), expected) ==>
                (misread <==> Misreads(old(tick), Reads(t, old(destination))))
      // whatever the source, it is left alone unless reading it failed
      ensures misread ==> ValidStore(t, old(destination), expected) && failures > old(failures)
      ensures ValidStore(t, old(destination), expected) && !misread ==> destination == old(destination)
      // and rebuilt without its caches if nothing else fails
      ensures misread && Stable() && failures == old(failures) + 1 ==> r.Ok? && Fresh(t, destination, expected)
      // without failures a steady source is published
      ensures Stable() && failures == old(failures) ==>
                (r.Ok? <==> Matches(t, expected) && (dryRun || (parentSafe && !old(destination).LinkPlace?)))
    {
      ghost var outcome, wasValid, length;
      r, outcome, wasValid, length := Deliver(t, expected, dryRun);
    }

    /** Publication, and what became of the store. */
    method Deliver(t: Tools, expected: Pin, dryRun: bool)
      returns (r: Result<Pin, Failure>, ghost outcome: Outcome, ghost wasValid: bool, ghost length: nat)
      requires Inventory(names) && forall m :: t.parse(t.render(m)) == Some(m)
      modifies this
      ensures Counts(old(tick), old(failures), tick, failures)
      ensures wasValid == ValidStore(t, old(destination), expected) && length == Reads(t, old(destination))
      ensures Shows(outcome, t, expected, old(destination), destination)
      ensures LossOf(outcome, old(lost), lost, old(failures), failures)
      ensures dryRun ==> outcome.Kept?
      ensures r.Ok? ==> r.value == expected && (dryRun || outcome.Rebuilt? || (wasValid && outcome.Kept?))
      ensures parentSafe && !dryRun && Matches(t, expected) && wasValid ==> outcome == FateFrom(old(tick), length)
      ensures parentSafe && !dryRun && Matches(t, expected) && wasValid ==> (misread <==> Misreads(old(tick), length))
      ensures misread ==> wasValid && failures > old(failures)
      ensures wasValid && !misread ==> outcome.Kept?
      ensures misread && Stable() && failures == old(failures) + 1 ==> r.Ok? && outcome.Rebuilt?
      ensures Stable() && failures == old(failures) ==>
                (r.Ok? <==> Matches(t, expected) && (dryRun || (parentSafe && !old(destination).LinkPlace?)))
    {
      misread, outcome := false, Kept;
      wasValid, length := ValidStore(t, destination, expected), Reads(t, destination);
      var prepared := Prepare(t, expected, length);
      if prepared.Err? {
        r := Err(prepared.error);
      } else if dryRun {
        r := Ok(expected);
      } else if !parentSafe {
        r := Err(UnsafeStorage);
      } else {
        LateFate(old(tick), tick, length);
        r, outcome := Install(t, prepared.value, wasValid, length);
      }
    }

    /** Read the manifest of the source and compare its pin. */
    method Prepare(t: Tools, expected: Pin, ghost length: nat) returns (r: Result<Manifest, Failure>)
      requires Inventory(names) && forall m :: t.parse(t.render(m)) == Some(m)
      modifies this`tick, this`failures
      ensures Counts(old(tick), old(failures), tick, failures)
      ensures r.Ok? ==> Publishable(t, r.value, names) && PinOf(t, r.value) == expected
      ensures r.Ok? ==> failures == old(failures) && tick == old(tick) + |names| + 1 && NoFault(old(tick), tick)
      ensures r.Ok? && Stable() ==> Steady(t, r.value) && Matches(t, expected)
      ensures r.Ok? && Matches(t, expected) ==> Steady(t, r.value)
      ensures r.Err? && failures == old(failures) ==> !Matches(t, expected)
      ensures r.Err? && Matches(t, expected) ==> FateFrom(old(tick), length) == Kept && !Misreads(old(tick), length)
    {
      var manifest := ReadManifest(t, names);
      if manifest.Err? {
        if k :| Steady(t, k) && PinOf(t, k) == expected {
          SteadyMeans(t, k);
          EarlyFault(old(tick), tick, length);
        }
        return manifest;
      }
      var m := manifest.value;
      SteadyMeans(t, m);
      PublishableMeans(t, m, names);
      forall k | Steady(t, k) ensures k == m { SteadyMeans(t, k); }
      return if PinOf(t, m) == expected then Ok(m) else Err(Mismatch);
    }

    /** Make sure of the storage, then repair what stands there. */
    method Install(t: Tools, m: Manifest, ghost wasValid: bool, ghost length: nat)
      returns (r: Result<Pin, Failure>, ghost outcome: Outcome)
      requires Publishable(t, m, names) && parentSafe && !misread
      requires wasValid == ValidStore(t, destination, PinOf(t, m)) && length == Reads(t, destination)
      modifies this
      ensures Counts(old(tick), old(failures), tick, failures)
      ensures Shows(outcome, t, PinOf(t, m), old(destination), destination)
      ensures LossOf(outcome, old(lost), lost, old(failures), failures)
      ensures r.Ok? ==> r.value == PinOf(t, m) && (outcome.Rebuilt? || (wasValid && outcome.Kept?))
      ensures misread ==> wasValid && failures > old(failures)
      ensures wasValid && !misread ==> outcome.Kept?
      ensures misread && Steady(t, m) && failures == old(failures) + 1 ==> r.Ok? && outcome.Rebuilt?
      ensures wasValid && Steady(t, m) ==>
                (misread <==> !faults(old(tick)) && !NoFault(old(tick) + 1, old(tick) + 1 + length))
      ensures wasValid && Steady(t, m) ==>
                outcome == if faults(old(tick)) then Kept else RepairsTo(old(tick) + 1, length)
      ensures Steady(t, m) && failures == old(failures) ==> (r.Ok? <==> !old(destination).LinkPlace?)
    {
      outcome := Kept;
      var failed := Fails();
      if failed {
        r := Err(Io);
      } else if destination.LinkPlace? {
        r := Err(UnsafeStorage);
      } else {
        r, outcome := Repair(t, m, wasValid, length);
      }
    }

    /** Keep a store that is read as valid, replace any other. */
    method Repair(t: Tools, m: Manifest, ghost wasValid: bool, ghost length: nat)
      returns (r: Result<Pin, Failure>, ghost outcome: Outcome)
      requires Publishable(t, m, names) && parentSafe && !destination.LinkPlace? && !misread
      requires wasValid == ValidStore(t, destination, PinOf(t, m)) && length == Reads(t, destination)
      modifies this
      ensures Counts(old(tick), old(failures), tick, failures)
      ensures Shows(outcome, t, PinOf(t, m), old(destination), destination)
      ensures LossOf(outcome, old(lost), lost, old(failures), failures)
      ensures r.Ok? ==> r.value == PinOf(t, m) && (outcome.Rebuilt? || (wasValid && outcome.Kept?))
      ensures misread ==> wasValid && failures > old(failures)
      ensures wasValid && !misread ==> outcome.Kept?
      ensures wasValid ==> (misread <==> !NoFault(old(tick), old(tick) + length))
      ensures misread && Steady(t, m) && failures == old(failures) + 1 ==> r.Ok? && outcome.Rebuilt?
      ensures wasValid && Steady(t, m) ==> outcome == RepairsTo(old(tick), length)
      ensures Steady(t, m) && failures == old(failures) ==> r.Ok?
    {
      var ok := false;
      if destination != Absent {
        ok := Validate(t, PinOf(t, m), wasValid, length);
        misread := wasValid && !ok;
      }
      if ok {
        FaultlessReading(old(tick), length);
        r, outcome := Ok(PinOf(t, m)), Kept;
      } else {
        if wasValid { FaultyReading(old(tick), length, tick - 1); }
        r, outcome := Restore(t, m);
      }
    }
  }

  /** One failing operation, wherever it strikes: a valid store is replaced and its caches
      are gone if and only if it is one of the reads of the store. */
  method OneFailure(t: Tools, place: Place, s: Source, expected: Pin, at: nat) returns (m: Machine, r: Result<Pin, Failure>)
    requires forall m :: t.parse(t.render(m)) == Some(m)
    requires ValidStore(t, place, expected) && CacheName in place.dir
    requires ManifestOf(t, s, RuntimeFiles).Some? && PinOf(t, ManifestOf(t, s, RuntimeFiles).value) == expected
    ensures fresh(m)
    ensures m.destination != place <==> 0 <= at - (|RuntimeFiles| + 2) < Reads(t, place)
    ensures m.destination != place ==> Fresh(t, m.destination, expected)
  {
    RuntimeInventory();
    ValidMeans(t, place, expected);
    m := new Machine(place, true, (n: nat) => s, (n: nat) => n == at);
    m.SteadyMeans(t, ManifestOf(t, s, RuntimeFiles).value);
    OneFault(m, Reads(t, place), at);
    r := m.Publish(t, expected, false);
    ValidMeans(t, m.destination, expected);
  }

  lemma OneFault(m: Machine, length: nat, at: nat)
    requires forall n: nat :: m.faults(n) <==> n == at
    ensures m.FateFrom(0, length) == if m.FirstRead(0) <= at < m.FirstRead(0) + length then Rebuilt else Kept
  {
    var v, end := m.FirstRead(0), m.FirstRead(0) + length;
    m.NoFaultMeans(0, v);
    assert m.faults(at);
    if v <= at < end {
      m.NoFaultMeans(v, at);
      m.NextFaultIs(v, at, end);
      m.NoFaultMeans(at + 1, at + 1 + m.StageSteps());
    } else if at >= end {
      m.NoFaultMeans(v, end);
      m.NextFaultIs(v, end, end);
    }
  }

  // ----- A staged directory is a valid store

  /** What staging and validation need of an inventory. */
  predicate Inventory(names: seq<string>) { AllPython(names) && "pipeline_state.py" in names }

  /** No name of the inventory can be taken for the manifest, for a cache or for a path. */
  lemma RuntimeInventory()
    ensures Inventory(RuntimeFiles)
  {
    NamesArePython();
    StateIsListed();
  }

  /** The manifest covers the inventory and survives being written and read; of a list of
      one inventory, for the same reason as above. */
  ghost predicate Publishable(t: Tools, m: Manifest, names: seq<string>) { AllCovered(t, m, [names]) }

  ghost predicate AllCovered(t: Tools, m: Manifest, inventories: seq<seq<string>>) {
    forall names {:trigger names in inventories} | names in inventories ::
      Inventory(names) && m.files.Keys == (set name | name in names) && t.parse(t.render(m)) == Some(m)
  }

  lemma PublishableMeans(t: Tools, m: Manifest, names: seq<string>)
    ensures Publishable(t, m, names) <==>
            Inventory(names) && m.files.Keys == (set name | name in names) && t.parse(t.render(m)) == Some(m)
  {
    assert names in [names];
  }

  lemma StagedIsFresh(t: Tools, m: Manifest, names: seq<string>, copies: map<string, Node>)
    requires Inventory(names) && Staged(t, m, names, copies)
    requires m.files.Keys == (set name | name in names) && t.parse(t.render(m)) == Some(m)
    ensures Fresh(t, Store(copies[ManifestName := Regular(t.render(m))]), PinOf(t, m))
  {
    StagedIsValid(t, m, names, copies);
    ValidMeans(t, Store(copies[ManifestName := Regular(t.render(m))]), PinOf(t, m));
    assert !EndsWith(CacheName, ".py");
  }

  /** Whatever was staged for a manifest is a valid store for the manifest's pin. */
  lemma StagedIsValid(t: Tools, m: Manifest, names: seq<string>, copies: map<string, Node>)
    requires Inventory(names) && Staged(t, m, names, copies)
    requires m.files.Keys == (set name | name in names) && t.parse(t.render(m)) == Some(m)
    ensures ValidDir(t, copies[ManifestName := Regular(t.render(m))], PinOf(t, m))
  {
    assert !EndsWith(ManifestName, ".py") && !EndsWith(CacheName, ".py");
  }

  lemma StateIsListed()
    ensures "pipeline_state.py" in RuntimeFiles
  {
    assert PipelineFiles[0] == "pipeline_state.py";
  }

  predicate AllPython(names: seq<string>) { forall i | 0 <= i < |names| :: PyName(names[i]) }

  lemma PipelineNames() ensures AllPython(PipelineFiles) {}
  lemma MilestoneNames() ensures AllPython(MilestoneFiles) {}
  lemma BuildNames() ensures AllPython(BuildFiles) {}
  lemma CheckNames() ensures AllPython(CheckFiles) {}
  lemma LastNames() ensures AllPython(LastFiles) {}

  lemma JoinPython(s: seq<string>, t: seq<string>)
    requires AllPython(s) && AllPython(t)
    ensures AllPython(s + t)
  {
  }

  lemma NamesArePython()
    ensures AllPython(RuntimeFiles)
  {
    PipelineNames(); MilestoneNames(); BuildNames(); CheckNames(); LastNames();
    JoinPython(PipelineFiles, MilestoneFiles);
    JoinPython(PipelineFiles + MilestoneFiles, BuildFiles);
    JoinPython(PipelineFiles + MilestoneFiles + BuildFiles, CheckFiles);
    JoinPython(PipelineFiles + MilestoneFiles + BuildFiles + CheckFiles, LastFiles);
  }
}
