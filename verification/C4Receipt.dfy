/** The S23 receipt: what the runner writes about one walk, and what the verifier
    demands of a receipt and of the files it pins. */
module C4Receipt {
  import opened Sequences
  import opened Utf8
  import opened InventoryReaders
  import opened InventoryText

  type Content = seq<Byte>

  const Schema := "m204-s23-c4-operational-receipt/v1"
  const ParserPath := "crates/ln-consultant-parser/src/contour_diagnostics.rs"
  const ExpectedXml := 43785
  const DurationFloorMs := 3600000
  const S23Prefix := "prd/migration/rust-evidence/m204-s23-"

  datatype Terminal = Terminal(
    outcome: string, exitCode: Option<int>, signal: Option<string>, timeout: bool, error: Option<string>)
  datatype Identity = Identity(attemptId: string, argvSha: string)
  datatype Pin = Pin(path: string, sha: string)
  datatype BuildInputs = BuildInputs(binarySha: string, contractSha: string, parserSha: string)
  datatype Corpus = Corpus(xmlCount: int, root: string, garantCount: int, garantRoot: string)
  datatype Binding = Binding(
    profile: string, limit: Option<int>, jobs: int, binaryProfile: string, sourceRevision: string)
  datatype Observed = Observed(diagnostics: string, digest: Option<string>, valid: bool, lines: int)
  datatype Logs = Logs(
    stdout: string, stderr: string, stdoutSha: string, stderrSha: string, diagnosticsSha: Option<string>)
  datatype Claims = Claims(acceptance: string, floorMs: int)

  datatype Receipt = Receipt(
    schema: string, attemptId: string, identity: Identity, argv: seq<string>, binary: Pin,
    binaryProfile: string, build: BuildInputs, parserRevision: string, sourceRevision: string,
    contract: Pin, corpus: Corpus, binding: Binding, durationMs: int, budgetSeconds: int,
    terminal: Terminal, observed: Observed, logs: Logs, claims: Claims, nonClaims: seq<string>)

  /** Hashing, decoding, JSON, full paths and numerals, as far as the runner and the verifier share them. */
  datatype Tools = Tools(
    hash: Content -> string, argvHash: seq<string> -> string, text: Content -> string,
    parseLine: string -> Line, revision: Content -> Option<string>,
    render: Receipt -> Content, parse: Content -> Option<Receipt>,
    full: string -> string, numeral: int -> string)

  function Sha(t: Tools, c: Content): string { "sha256:" + t.hash(c) }

  function LinesOf(t: Tools, c: Content): seq<Line> { FileLines(t.parseLine, t.text(c)) }

  /** What the current reader makes of a diagnostics file. */
  function DigestIn(t: Tools, c: Content): Option<string> {
    var first := First(SolidText(), LinesOf(t, c));
    if first.Some? && first.value.Text? then Some(first.value.text) else None
  }

  predicate OccursAt(s: string, part: string, i: nat) {
    i + |part| <= |s| && s[i..i + |part|] == part
  }

  predicate Contains(s: string, part: string) {
    exists i | 0 <= i <= |s| :: OccursAt(s, part, i)
  }

  predicate NonPerformance(claim: string) {
    Contains(claim, "performance") && (Contains(claim, "not") || Contains(claim, "non-"))
  }

  // ----- Paths: files are named as the receipt displays them, relative to the
  // repository, or absolute when they lie outside it

  function Parts(path: string): seq<string> { Pieces(path, {'/'}, "") }

  predicate Metadata(path: string) { ".git" in Parts(path) || ".gsd" in Parts(path) }

  predicate Plain(path: string) {
    path != "" && path[0] != '/' && ".." !in Parts(path) && '\\' !in path && !Metadata(path)
  }

  /** The file a receipt may point at. */
  function RepoFile(files: map<string, Content>, path: string): Option<Content> {
    if Plain(path) && path in files then Some(files[path]) else None
  }

  // ----- The operational predicate

  predicate OperationalPass(terminal: Terminal, durationMs: int, xmlCount: int, limit: Option<int>, digest: Option<string>, valid: bool) {
    && terminal.outcome == "complete" && terminal.exitCode == Some(0) && !terminal.timeout
    && durationMs >= DurationFloorMs && limit.None? && xmlCount == ExpectedXml
    && digest.Some? && digest.value != "" && valid
  }

  predicate Passes(r: Receipt) {
    OperationalPass(r.terminal, r.durationMs, r.corpus.xmlCount, r.binding.limit, r.observed.digest, r.observed.valid)
  }

  function Acceptance(pass: bool): string { if pass then "pass" else "non-pass" }

  // ----- Running a walk

  datatype Args = Args(
    attemptId: string, binary: string, root: string, garantRoot: string, contract: string,
    out: string, attempts: string, diagnostics: string, sourceRevision: string, profile: string,
    binaryProfile: string, limit: Option<int>, jobs: int, budgetSeconds: int, timeoutSeconds: int,
    claim: string)

  datatype Ending = LaunchFailed(error: string) | Exited(code: int) | TimedOut(signal: string, code: int)

  /** What the environment contributes: how the process ended, what it wrote, and
      the clock and file counts taken afterwards. */
  datatype Walk = Walk(
    ending: Ending, stdout: Content, stderr: Content, diagnostics: Option<Content>,
    durationMs: nat, xmlCount: nat, garantCount: nat)

  datatype Failure = BadArgument | UnsafePath | Missing | Collision | WrongContract | NoRevision

  function LogPath(a: Args, name: string): string { a.attempts + "/" + (a.attemptId + ("/" + name)) }
  function StdoutPath(a: Args): string { LogPath(a, "stdout.log") }
  function StderrPath(a: Args): string { LogPath(a, "stderr.log") }

  /** The command line of the walk. */
  function Argv(t: Tools, a: Args): seq<string> {
    [t.full(a.binary), "--root", t.full(a.root), "--garant-root", t.full(a.garantRoot), "--profile", a.profile,
     "--jobs", t.numeral(a.jobs), "--acceptance-contract", t.full(a.contract), "--source-revision", a.sourceRevision,
     "--out", t.full(a.diagnostics)]
    + if a.limit.Some? then ["--limit", t.numeral(a.limit.value)] else []
  }

  predicate GoodArguments(a: Args) {
    && a.attemptId != "" && '.' !in a.attemptId && '/' !in a.attemptId
    && a.jobs >= 0 && (a.limit.Some? ==> a.limit.value >= 0)
    && a.timeoutSeconds > 0 && a.budgetSeconds > 0
    && a.sourceRevision != "" && a.claim != ""
  }

  predicate FreshOutput(files: map<string, Content>, path: string) {
    Plain(path) && S23Prefix <= path && path !in files
  }

  predicate ContractOk(t: Tools, c: Content) {
    Contains(t.text(c), "schema: npa-acceptance-contract/v1") && Contains(t.text(c), "check_id: c4-live-check")
  }

  predicate SafePaths(files: map<string, Content>, a: Args) {
    && !Metadata(a.binary) && !Metadata(a.root) && !Metadata(a.garantRoot) && !Metadata(a.contract)
    && FreshOutput(files, a.out) && FreshOutput(files, a.diagnostics) && a.out != a.diagnostics
    && Plain(a.attempts) && a.attempts[|a.attempts| - 1] != '/'
  }

  predicate Runnable(t: Tools, files: map<string, Content>, dirs: set<string>, a: Args) {
    && GoodArguments(a) && SafePaths(files, a)
    && a.binary in files && a.root in dirs && a.garantRoot in dirs
    && a.contract in files && ContractOk(t, files[a.contract])
    && StdoutPath(a) !in files && StderrPath(a) !in files
  }

  /** The files once the process is gone and before the receipt is written. */
  function AfterWalk(files: map<string, Content>, a: Args, w: Walk): map<string, Content> {
    var logged := files[StdoutPath(a) := w.stdout][StderrPath(a) := w.stderr];
    if w.diagnostics.Some? then logged[a.diagnostics := w.diagnostics.value] else logged
  }

  /** The run ends with a receipt. */
  predicate Recorded(t: Tools, files: map<string, Content>, dirs: set<string>, a: Args, w: Walk) {
    && Runnable(t, files, dirs, a)
    && ParserPath in AfterWalk(files, a, w) && t.revision(AfterWalk(files, a, w)[ParserPath]).Some?
    && a.out !in AfterWalk(files, a, w)
  }

  function TerminalOf(e: Ending): Terminal {
    match e
    case LaunchFailed(error) => Terminal("launch_error", None, None, false, Some(error))
    case Exited(code) => Terminal(if code == 0 then "complete" else "nonzero", Some(code), None, false, None)
    case TimedOut(signal, code) => Terminal("timeout", Some(code), Some(signal), true, None)
  }

  /** The observed output, absent diagnostics reading as an empty file. */
  function ObservedOf(t: Tools, files: map<string, Content>, path: string): Observed {
    if path in files then
      Observed(path, DigestIn(t, files[path]), S23Accepts(LinesOf(t, files[path])), RecordCount(LinesOf(t, files[path])))
    else Observed(path, None, false, 0)
  }

  const FreshnessClaim := "receipt presence is not runtime freshness"
  // in two halves: a short literal is compared quickly
  const PinClaim := "source_revision is caller" + " pin, not GSD aggregate"
  const SemanticClaim := "semantic acceptance remains in Rust JSONL"

  function NonClaimsOf(claim: string): seq<string> {
    [claim, FreshnessClaim, PinClaim, SemanticClaim]
  }

  /** The receipt of a walk, from the files as the walk left them and the reader's findings. */
  function ReceiptOf(t: Tools, files: map<string, Content>, a: Args, w: Walk, revision: string, observed: Observed): Receipt
    requires {a.binary, a.contract, ParserPath, StdoutPath(a), StderrPath(a)} <= files.Keys
  {
    var binary, contract := Sha(t, files[a.binary]), Sha(t, files[a.contract]);
    var terminal := TerminalOf(w.ending);
    Receipt(
      Schema, a.attemptId, Identity(a.attemptId, t.argvHash(Argv(t, a))), Argv(t, a), Pin(a.binary, binary),
      a.binaryProfile, BuildInputs(binary, contract, Sha(t, files[ParserPath])), revision, a.sourceRevision,
      Pin(a.contract, contract), Corpus(w.xmlCount, a.root, w.garantCount, a.garantRoot),
      Binding(a.profile, a.limit, a.jobs, a.binaryProfile, a.sourceRevision),
      w.durationMs, a.budgetSeconds, terminal, observed,
      Logs(
        StdoutPath(a), StderrPath(a), Sha(t, files[StdoutPath(a)]), Sha(t, files[StderrPath(a)]),
        if a.diagnostics in files then Some(Sha(t, files[a.diagnostics])) else None),
      Claims(
        Acceptance(OperationalPass(terminal, w.durationMs, w.xmlCount, a.limit, observed.digest, observed.valid)),
        DurationFloorMs),
      NonClaimsOf(a.claim))
  }

  method ReadDiagnostics(t: Tools, files: map<string, Content>, path: string)
    returns (digest: Option<string>, valid: bool, count: nat)
    ensures Observed(path, digest, valid, count) == ObservedOf(t, files, path)
  {
    digest, valid, count := ReadS23(if path in files then Some(LinesOf(t, files[path])) else None);
  }

  /** The regular files of the machine, as far as a run touches them. */
  class Repository {
    var files: map<string, Content>
    const dirs: set<string>

    /** Exclusive creation: refuses to overwrite. */
    method Create(path: string, content: Content) returns (ok: bool)
      modifies this
      ensures ok <==> path !in old(files)
      ensures files == if ok then old(files)[path := content] else old(files)
    {
      ok := path !in files;
      if ok { files := files[path := content]; }
    }

    method CheckRunnable(t: Tools, a: Args) returns (f: Option<Failure>)
      ensures f.None? <==> Runnable(t, files, dirs, a)
    {
      if !GoodArguments(a) { return Some(BadArgument); }
      if !SafePaths(files, a) { return Some(UnsafePath); }
      if a.binary !in files || a.root !in dirs || a.garantRoot !in dirs || a.contract !in files { return Some(Missing); }
      if !ContractOk(t, files[a.contract]) { return Some(WrongContract); }
      if StdoutPath(a) in files || StderrPath(a) in files { return Some(Collision); }
      return None;
    }

    /** Logs are created exclusively, then the process writes. */
    method Walked(a: Args, w: Walk)
      requires StdoutPath(a) !in files && StderrPath(a) !in files
      modifies this
      ensures files == AfterWalk(old(files), a, w)
    {
      LogsDiffer(a);
      var _ := Create(StdoutPath(a), w.stdout);
      var _ := Create(StderrPath(a), w.stderr);
      if w.diagnostics.Some? { files := files[a.diagnostics := w.diagnostics.value]; }
    }

    /** Run the walk and record it. A refused run leaves every file alone; one that
        fails later leaves no receipt behind. */
    method Run(t: Tools, a: Args, w: Walk) returns (r: Result<Receipt, Failure>)
      modifies this
      ensures RecordOf(t, old(files), dirs, a, w) == if r.Ok? then Some(r.value) else None
      ensures !Runnable(t, old(files), dirs, a) ==> files == old(files)
      ensures Runnable(t, old(files), dirs, a) && r.Err? ==> files == AfterWalk(old(files), a, w)
      ensures r.Ok? ==> files == AfterWalk(old(files), a, w)[a.out := t.render(r.value)]
    {
      var refused := CheckRunnable(t, a);
      if refused.Some? { return Err(refused.value); }
      Walked(a, w);
      if ParserPath !in files { return Err(Missing); }
      var revision := t.revision(files[ParserPath]);
      if revision.None? { return Err(NoRevision); }
      var digest, valid, count := ReadDiagnostics(t, files, a.diagnostics);
      var receipt := ReceiptOf(t, files, a, w, revision.value, Observed(a.diagnostics, digest, valid, count));
      var written := Create(a.out, t.render(receipt));
      return if written then Ok(receipt) else Err(Collision);
    }
  }

  /** The receipt a run writes, if it gets that far. */
  function RecordOf(t: Tools, files: map<string, Content>, dirs: set<string>, a: Args, w: Walk): Option<Receipt> {
    if Recorded(t, files, dirs, a, w) then
      var after := AfterWalk(files, a, w);
      Some(ReceiptOf(t, after, a, w, t.revision(after[ParserPath]).value, ObservedOf(t, after, a.diagnostics)))
    else None
  }

  lemma LogsDiffer(a: Args)
    ensures StdoutPath(a) != StderrPath(a)
  {
    var n := |a.attempts| + 1 + |a.attemptId| + 4;
    assert StdoutPath(a)[n] == 'o' && StderrPath(a)[n] == 'e' by {
      assert ("/" + "stdout.log")[4] == 'o' && ("/" + "stderr.log")[4] == 'e';
    }
  }

  // ----- Verifying a receipt

  /** The receipt agrees with itself. */
  predicate WellMade(t: Tools, r: Receipt) {
    && r.schema == Schema && r.attemptId != ""
    && r.identity == Identity(r.attemptId, t.argvHash(r.argv)) && r.argv != []
    && r.terminal.error.None?
    && r.binaryProfile in ["debug", "release"] && r.binding.binaryProfile == r.binaryProfile
    && r.binding.sourceRevision == r.sourceRevision
    && r.durationMs >= 0 && r.budgetSeconds >= 3600 && r.binding.jobs >= 0
    && (r.binding.limit.Some? ==> r.binding.limit.value >= 0)
    && (r.terminal.outcome == "complete" ==> r.terminal.exitCode == Some(0))
    && (r.terminal.timeout <==> r.terminal.outcome == "timeout")
    && r.claims.floorMs == DurationFloorMs
    && (exists claim | claim in r.nonClaims :: NonPerformance(claim))
  }

  /** The receipt agrees with a pinned file. */
  predicate Pinned(t: Tools, files: map<string, Content>, path: string, sha: string) {
    RepoFile(files, path).Some? && Sha(t, RepoFile(files, path).value) == sha
  }

  /** The receipt agrees with the files. */
  predicate FilesMatch(t: Tools, files: map<string, Content>, r: Receipt) {
    && Pinned(t, files, r.binary.path, r.binary.sha) && r.build.binarySha == r.binary.sha
    && Pinned(t, files, r.contract.path, r.contract.sha) && r.build.contractSha == r.contract.sha
    && Pinned(t, files, r.logs.stdout, r.logs.stdoutSha) && Pinned(t, files, r.logs.stderr, r.logs.stderrSha)
    && r.logs.diagnosticsSha.Some? && Pinned(t, files, r.observed.diagnostics, r.logs.diagnosticsSha.value)
    && ParserPath in files && Sha(t, files[ParserPath]) == r.build.parserSha
    && t.revision(files[ParserPath]) == Some(r.parserRevision)
  }

  /** Digest and count are what the reader finds; validity is claimed at most. */
  predicate ReaderAgrees(t: Tools, c: Content, o: Observed) {
    && o.digest == DigestIn(t, c) && o.lines == RecordCount(LinesOf(t, c))
    && (o.valid ==> S23Accepts(LinesOf(t, c)))
  }

  predicate Verified(t: Tools, files: map<string, Content>, r: Receipt) {
    && WellMade(t, r) && FilesMatch(t, files, r)
    && ReaderAgrees(t, files[r.observed.diagnostics], r.observed)
    && r.claims.acceptance == Acceptance(Passes(r))
  }

  datatype Refusal =
    | NoReceipt | Malformed | UnsafeOrMissingFile | MalformedHash | HashMismatch
    | InventoryMismatch | RevisionMismatch | ClaimMismatch | NotProven

  /** The file holds a receipt that verifies and, where demanded, passes. */
  predicate Accepts(t: Tools, files: map<string, Content>, path: string, requirePass: bool) {
    && path in files && t.parse(files[path]).Some? && Verified(t, files, t.parse(files[path]).value)
    && (requirePass ==> Passes(t.parse(files[path]).value))
  }

  method Verify(t: Tools, files: map<string, Content>, path: string, requirePass: bool)
    returns (r: Result<string, Refusal>)
    ensures r.Ok? <==> Accepts(t, files, path, requirePass)
    ensures r.Ok? ==> r.value == Acceptance(Passes(t.parse(files[path]).value))
    ensures r.Err? && r.error == NotProven ==> requirePass
  {
    if path !in files || t.parse(files[path]).None? { return Err(NoReceipt); }
    var data := t.parse(files[path]).value;
    if !WellMade(t, data) { return Err(Malformed); }
    var binary, contract := RepoFile(files, data.binary.path), RepoFile(files, data.contract.path);
    var diagnostics := RepoFile(files, data.observed.diagnostics);
    var stdout, stderr := RepoFile(files, data.logs.stdout), RepoFile(files, data.logs.stderr);
    if binary.None? || contract.None? || diagnostics.None? || stdout.None? || stderr.None? || ParserPath !in files {
      return Err(UnsafeOrMissingFile);
    }
    if !("sha256:" <= data.binary.sha) || !("sha256:" <= data.contract.sha) { return Err(MalformedHash); }
    if !("sha256:" <= data.build.binarySha) || !("sha256:" <= data.build.contractSha) { return Err(MalformedHash); }
    if data.binary.sha != Sha(t, binary.value) || data.build.binarySha != data.binary.sha
       || data.contract.sha != Sha(t, contract.value) || data.build.contractSha != data.contract.sha
       || data.build.parserSha != Sha(t, files[ParserPath]) {
      return Err(HashMismatch);
    }
    var digest, valid, lines := ReadDiagnostics(t, files, data.observed.diagnostics);
    if digest != data.observed.digest || lines != data.observed.lines || (data.observed.valid && !valid) {
      return Err(InventoryMismatch);
    }
    if data.logs.diagnosticsSha != Some(Sha(t, diagnostics.value))
       || data.logs.stdoutSha != Sha(t, stdout.value) || data.logs.stderrSha != Sha(t, stderr.value) {
      return Err(HashMismatch);
    }
    if t.revision(files[ParserPath]) != Some(data.parserRevision) { return Err(RevisionMismatch); }
    var actual := Passes(data);
    if data.claims.acceptance != Acceptance(actual) { return Err(ClaimMismatch); }
    if requirePass && !actual { return Err(NotProven); }
    return Ok(Acceptance(actual));
  }

  // ----- What verification means

  /** No promotion: a verified pass has a complete full walk behind it, and the
      current reader accepts the pinned diagnostics with the recorded digest and count. */
  lemma VerifiedPassIsReal(t: Tools, files: map<string, Content>, r: Receipt)
    requires Verified(t, files, r) && r.claims.acceptance == "pass"
    ensures r.observed.diagnostics in files
    ensures var c := files[r.observed.diagnostics];
            && r.logs.diagnosticsSha == Some(Sha(t, c))
            && S23Accepts(LinesOf(t, c)) && RecordCount(LinesOf(t, c)) == r.observed.lines
            && First(SolidText(), LinesOf(t, c)) == Some(Text(r.observed.digest.value))
    ensures r.terminal == Terminal("complete", Some(0), r.terminal.signal, false, None)
    ensures r.durationMs >= DurationFloorMs && r.corpus.xmlCount == ExpectedXml && r.binding.limit.None?
  {
    assert Passes(r) by { assert Acceptance(false) == "non-pass" != "pass"; }
  }

  /** Validity may be understated, never overstated: rewriting the recorded
      validity, with the claim that goes with it, survives exactly when the reader
      accepts or the rewritten receipt claims no validity. */
  lemma ValidityIsAnUpperBound(t: Tools, files: map<string, Content>, r: Receipt, valid: bool)
    requires Verified(t, files, r)
    ensures var observed := r.observed.(valid := valid);
            var pass := Passes(r.(observed := observed));
            Verified(t, files, r.(observed := observed, claims := r.claims.(acceptance := Acceptance(pass))))
            <==> (valid ==> S23Accepts(LinesOf(t, files[r.observed.diagnostics])))
  {
    var observed := r.observed.(valid := valid);
    var pass := Passes(r.(observed := observed));
    var other := r.(observed := observed, claims := r.claims.(acceptance := Acceptance(pass)));
    assert Passes(other) == pass && WellMade(t, other) && FilesMatch(t, files, other);
  }

  // ----- A recorded run, verified

  lemma ContainsNeeds(s: string, part: string, c: char)
    requires c in part && c !in s
    ensures !Contains(s, part)
  {
    var k :| 0 <= k < |part| && part[k] == c;
    forall i | 0 <= i <= |s| ensures !OccursAt(s, part, i) {
      if i + |part| <= |s| { assert s[i..i + |part|][k] == s[i + k] && s[i + k] in s; }
    }
  }

  lemma FreshnessSaysNothing()
    ensures !NonPerformance(FreshnessClaim)
  {
    assert "performance"[7] == 'a';
    ContainsNeeds(FreshnessClaim, "performance", 'a');
  }

  lemma PinSaysNothing()
    ensures !NonPerformance(PinClaim)
  {
    assert "performance"[3] == 'f';
    ContainsNeeds(PinClaim, "performance", 'f');
  }

  lemma SemanticsSayNothing()
    ensures !NonPerformance(SemanticClaim)
  {
    assert "performance"[3] == 'f';
    ContainsNeeds(SemanticClaim, "performance", 'f');
  }

  /** Only the caller's claim can be the non-performance claim. */
  lemma FixedClaimsSayNothing(claim: string)
    ensures (exists c | c in NonClaimsOf(claim) :: NonPerformance(c)) <==> NonPerformance(claim)
  {
    FreshnessSaysNothing();
    PinSaysNothing();
    SemanticsSayNothing();
    assert NonClaimsOf(claim)[0] == claim;
  }

  lemma {:induction false} PiecesJoin(a: string, b: string, current: string)
    requires a != "" && a[|a| - 1] != '/'
    ensures Pieces(a + ("/" + b), {'/'}, current) == Pieces(a, {'/'}, current) + Pieces(b, {'/'}, "")
    decreases |a|
  {
    var s := a + ("/" + b);
    assert s[0] == a[0] && s[1..] == a[1..] + ("/" + b);
    if |a| == 1 {
      assert s[1..] == "/" + b && ("/" + b)[1..] == b && a[1..] == "";
    } else if a[0] == '/' {
      PiecesJoin(a[1..], b, "");
    } else {
      PiecesJoin(a[1..], b, current + [a[0]]);
    }
  }

  lemma {:induction false} OnePiece(s: string, current: string)
    requires '/' !in s && s + current != ""
    ensures Pieces(s, {'/'}, current) == [current + s]
    decreases |s|
  {
    if s == "" {
      assert current + s == current;
    } else {
      assert s[0] in s && forall c | c in s[1..] :: c in s;
      assert current + [s[0]] + s[1..] == current + s;
      OnePiece(s[1..], current + [s[0]]);
    }
  }

  lemma LogParts(dir: string, id: string, name: string)
    requires dir != "" && dir[|dir| - 1] != '/'
    requires id != "" && '/' !in id && name != "" && '/' !in name
    ensures Parts(dir + ("/" + (id + ("/" + name)))) == Parts(dir) + [id, name]
  {
    PiecesJoin(dir, id + ("/" + name), "");
    assert id[|id| - 1] in id;
    PiecesJoin(id, name, "");
    OnePiece(id, "");
    OnePiece(name, "");
    assert "" + id == id && "" + name == name && [id] + [name] == [id, name];
  }

  /** A log may be pinned unless the attempt id holds a backslash, which the runner
      lets through and the verifier does not. */
  lemma LogIsPlain(dir: string, id: string, name: string)
    requires Plain(dir) && dir[|dir| - 1] != '/'
    requires id != "" && '/' !in id && '.' !in id
    requires name != "" && '/' !in name && '\\' !in name && name[0] != '.'
    ensures Plain(dir + "/" + (id + ("/" + name))) <==> '\\' !in id
  {
    var path := dir + ("/" + (id + ("/" + name)));
    assert path == dir + "/" + (id + ("/" + name));
    LogParts(dir, id, name);
    NotDotted("..", id, name);
    NotDotted(".git", id, name);
    NotDotted(".gsd", id, name);
  }

  lemma NotDotted(part: string, id: string, name: string)
    requires part != "" && part[0] == '.' && '.' !in id && name != "" && name[0] != '.'
    ensures part !in [id, name]
  {
    assert id != "" ==> id[0] in id;
  }

  /** What a caller can know to matter: the binary and the contract lie at plain paths
      of the repository, the budget and profile are the verifier's, the claim
      disowns performance, and the attempt id has no backslash. */
  predicate VerifiableArguments(a: Args) {
    && Plain(a.binary) && Plain(a.contract) && a.budgetSeconds >= 3600
    && a.binaryProfile in ["debug", "release"] && NonPerformance(a.claim) && '\\' !in a.attemptId
  }

  /** The receipt of a run agrees with itself unless the process could not be launched. */
  lemma RecordIsWellMade(t: Tools, files: map<string, Content>, dirs: set<string>, a: Args, w: Walk)
    requires RecordOf(t, files, dirs, a, w).Some?
    ensures WellMade(t, RecordOf(t, files, dirs, a, w).value)
            <==> !w.ending.LaunchFailed? && a.budgetSeconds >= 3600
                 && a.binaryProfile in ["debug", "release"] && NonPerformance(a.claim)
  {
    FixedClaimsSayNothing(a.claim);
  }

  /** Every pin holds after the receipt was added, unless a path is not plain or the
      diagnostics were never written. */
  lemma RecordMatchesFiles(t: Tools, files: map<string, Content>, dirs: set<string>, a: Args, w: Walk)
    requires RecordOf(t, files, dirs, a, w).Some?
    ensures var r := RecordOf(t, files, dirs, a, w).value;
            var after := AfterWalk(files, a, w);
            FilesMatch(t, after[a.out := t.render(r)], r)
            <==> Plain(a.binary) && Plain(a.contract) && '\\' !in a.attemptId && a.diagnostics in after
  {
    var r, after := RecordOf(t, files, dirs, a, w).value, AfterWalk(files, a, w);
    var out := t.render(r);
    LogsArePlain(a);
    PinKept(t, after, a.out, out, a.binary);
    PinKept(t, after, a.out, out, a.contract);
    PinKept(t, after, a.out, out, StdoutPath(a));
    PinKept(t, after, a.out, out, StderrPath(a));
    PinKept(t, after, a.out, out, a.diagnostics);
  }

  /** A file keeps its digest when another one is created. */
  lemma PinKept(t: Tools, files: map<string, Content>, out: string, content: Content, path: string)
    requires out !in files
    ensures path in files ==> (Pinned(t, files[out := content], path, Sha(t, files[path])) <==> Plain(path))
  {
  }

  lemma LogsArePlain(a: Args)
    requires GoodArguments(a) && Plain(a.attempts) && a.attempts[|a.attempts| - 1] != '/'
    ensures Plain(StdoutPath(a)) <==> '\\' !in a.attemptId
    ensures Plain(StderrPath(a)) <==> '\\' !in a.attemptId
  {
    LogIsPlain(a.attempts, a.attemptId, "stdout.log");
    LogIsPlain(a.attempts, a.attemptId, "stderr.log");
  }

  /** Run then verify: with the files as the run left them, the receipt verifies
      exactly when the process was launched, the diagnostics exist and the
      arguments were the verifier's. */
  lemma RunThenVerify(t: Tools, files: map<string, Content>, dirs: set<string>, a: Args, w: Walk)
    requires RecordOf(t, files, dirs, a, w).Some?
    ensures var r := RecordOf(t, files, dirs, a, w).value;
            var after := AfterWalk(files, a, w);
            Verified(t, after[a.out := t.render(r)], r)
            <==> !w.ending.LaunchFailed? && VerifiableArguments(a) && a.diagnostics in after
  {
    RecordIsWellMade(t, files, dirs, a, w);
    RecordMatchesFiles(t, files, dirs, a, w);
  }

  /** The walk itself was a pass. */
  predicate GoodWalk(t: Tools, a: Args, w: Walk, diagnostics: Content) {
    && w.ending == Exited(0) && w.durationMs >= DurationFloorMs && a.limit.None?
    && w.xmlCount == ExpectedXml && S23Accepts(LinesOf(t, diagnostics))
  }

  /** A run's receipt claims a pass exactly when its walk was one. */
  lemma RunPassesIff(t: Tools, files: map<string, Content>, dirs: set<string>, a: Args, w: Walk)
    requires RecordOf(t, files, dirs, a, w).Some?
    ensures var r := RecordOf(t, files, dirs, a, w).value;
            var after := AfterWalk(files, a, w);
            && (r.claims.acceptance == "pass" <==> Passes(r))
            && (Passes(r) <==> a.diagnostics in after && GoodWalk(t, a, w, after[a.diagnostics]))
  {
    var after := AfterWalk(files, a, w);
    assert Acceptance(false) == "non-pass" != "pass";
    if a.diagnostics in after { FirstIsCarried(SolidText(), LinesOf(t, after[a.diagnostics])); }
  }

  /** The file a run leaves is accepted exactly when its process was launched, its
      diagnostics exist and its arguments are the verifier's; and with a pass demanded,
      exactly when the walk was one as well. */
  lemma RunThenVerifyFile(t: Tools, files: map<string, Content>, dirs: set<string>, a: Args, w: Walk, requirePass: bool)
    requires RecordOf(t, files, dirs, a, w).Some?
    requires var r := RecordOf(t, files, dirs, a, w).value; t.parse(t.render(r)) == Some(r)
    ensures var r := RecordOf(t, files, dirs, a, w).value;
            var after := AfterWalk(files, a, w);
            Accepts(t, after[a.out := t.render(r)], a.out, requirePass)
            <==> !w.ending.LaunchFailed? && VerifiableArguments(a) && a.diagnostics in after
                 && (requirePass ==> GoodWalk(t, a, w, after[a.diagnostics]))
  {
    RunThenVerify(t, files, dirs, a, w);
    RunPassesIff(t, files, dirs, a, w);
  }

  // ----- What a receipt says about its run

  /** What a recorded run leaves: its receipt, its two logs and its diagnostics, each with its own
      content and digest, and every other file as it was. */
  lemma RunLeaves(t: Tools, files: map<string, Content>, dirs: set<string>, a: Args, w: Walk, path: string)
    requires RecordOf(t, files, dirs, a, w).Some?
    requires a.diagnostics != StdoutPath(a) && a.diagnostics != StderrPath(a)
    ensures var r := RecordOf(t, files, dirs, a, w).value;
            var left := AfterWalk(files, a, w)[a.out := t.render(r)];
            && left[a.out] == t.render(r) && r.logs.stdout != r.logs.stderr
            && r.logs.stdout in left && left[r.logs.stdout] == w.stdout && r.logs.stdoutSha == Sha(t, w.stdout)
            && r.logs.stderr in left && left[r.logs.stderr] == w.stderr && r.logs.stderrSha == Sha(t, w.stderr)
            && (w.diagnostics.Some? ==> a.diagnostics in left && left[a.diagnostics] == w.diagnostics.value)
            && (path !in {a.out, r.logs.stdout, r.logs.stderr, a.diagnostics} ==>
                  (path in left <==> path in files) && (path in files ==> left[path] == files[path]))
  {
    LogsDiffer(a);
  }

  /** The command line that the other fields of a receipt describe. */
  function CommandLine(t: Tools, r: Receipt): seq<string> {
    [t.full(r.binary.path), "--root", t.full(r.corpus.root), "--garant-root", t.full(r.corpus.garantRoot),
     "--profile", r.binding.profile, "--jobs", t.numeral(r.binding.jobs), "--acceptance-contract", t.full(r.contract.path),
     "--source-revision", r.binding.sourceRevision, "--out", t.full(r.observed.diagnostics)]
    + if r.binding.limit.Some? then ["--limit", t.numeral(r.binding.limit.value)] else []
  }

  /** The command line of a receipt is the one its corpus, contract, binding and output fields
      describe: nothing else was run than what they say. */
  lemma RecordIsItsCommand(t: Tools, files: map<string, Content>, dirs: set<string>, a: Args, w: Walk)
    requires RecordOf(t, files, dirs, a, w).Some?
    ensures var r := RecordOf(t, files, dirs, a, w).value;
            r.argv == CommandLine(t, r) && r.identity.argvSha == t.argvHash(CommandLine(t, r))
  {
  }

  /** The arguments that a receipt records. */
  predicate SameArguments(a: Args, b: Args) {
    && a.attemptId == b.attemptId && a.binary == b.binary && a.root == b.root && a.garantRoot == b.garantRoot
    && a.contract == b.contract && a.diagnostics == b.diagnostics && a.sourceRevision == b.sourceRevision
    && a.profile == b.profile && a.binaryProfile == b.binaryProfile && a.limit == b.limit && a.jobs == b.jobs
    && a.budgetSeconds == b.budgetSeconds && a.claim == b.claim
  }

  /** No two different runs leave the same receipt, up to what lies behind equal digests and to the
      arguments that no receipt records: the ending, the duration, the counts and the recorded
      arguments can be told from it. */
  lemma ReceiptTellsRun(
    t: Tools, files: map<string, Content>, dirs: set<string>, a: Args, w: Walk,
    files': map<string, Content>, dirs': set<string>, a': Args, w': Walk)
    requires RecordOf(t, files, dirs, a, w).Some?
    requires RecordOf(t, files, dirs, a, w) == RecordOf(t, files', dirs', a', w')
    ensures SameArguments(a, a') && w.ending == w'.ending
    ensures w.durationMs == w'.durationMs && w.xmlCount == w'.xmlCount && w.garantCount == w'.garantCount
  {
    ArgumentsTold(t, files, dirs, a, w);
    ArgumentsTold(t, files', dirs', a', w');
    EndingTold(w.ending, w'.ending);
  }

  /** Each recorded argument and each number of the walk is read off one field. */
  predicate Tells(r: Receipt, a: Args, w: Walk) {
    && r.attemptId == a.attemptId && r.binary.path == a.binary && r.corpus.root == a.root
    && r.corpus.garantRoot == a.garantRoot && r.contract.path == a.contract && r.observed.diagnostics == a.diagnostics
    && r.binding == Binding(a.profile, a.limit, a.jobs, a.binaryProfile, a.sourceRevision)
    && r.budgetSeconds == a.budgetSeconds && |r.nonClaims| > 0 && r.nonClaims[0] == a.claim
    && r.terminal == TerminalOf(w.ending) && r.durationMs == w.durationMs
    && r.corpus.xmlCount == w.xmlCount && r.corpus.garantCount == w.garantCount
  }

  lemma ArgumentsTold(t: Tools, files: map<string, Content>, dirs: set<string>, a: Args, w: Walk)
    requires RecordOf(t, files, dirs, a, w).Some?
    ensures Tells(RecordOf(t, files, dirs, a, w).value, a, w)
  {
  }

  lemma EndingTold(e: Ending, f: Ending)
    requires TerminalOf(e) == TerminalOf(f)
    ensures e == f
  {
  }

  // ----- The runner asks less than the verifier

  /** Every recorded run stays one with a budget of a second or with a failed launch;
      neither receipt verifies. */
  lemma ShortBudgetAndFailedLaunch(t: Tools, files: map<string, Content>, dirs: set<string>, a: Args, w: Walk, error: string)
    requires RecordOf(t, files, dirs, a, w).Some?
    ensures var short := a.(budgetSeconds := 1);
            && RecordOf(t, files, dirs, short, w).Some?
            && !WellMade(t, RecordOf(t, files, dirs, short, w).value)
    ensures var failed := w.(ending := LaunchFailed(error));
            && RecordOf(t, files, dirs, a, failed).Some?
            && !WellMade(t, RecordOf(t, files, dirs, a, failed).value)
  {
    var short, failed := a.(budgetSeconds := 1), w.(ending := LaunchFailed(error));
    assert AfterWalk(files, short, w) == AfterWalk(files, a, w) == AfterWalk(files, a, failed);
    RecordIsWellMade(t, files, dirs, short, w);
    RecordIsWellMade(t, files, dirs, a, failed);
  }

  const Outside := "/b"

  lemma OutsideIsNotPlain()
    ensures !Plain(Outside) && !Metadata(Outside)
  {
    assert Outside[1..] == "b" && "b"[1..] == "" && "" + ['b'] == "b";
    assert Pieces("b", {'/'}, "") == ["b"];
    assert Parts(Outside) == ["", "b"];
    assert |".git"| == 4 && |".gsd"| == 4;
  }

  /** It stays one when the binary is a file outside the repository, and that receipt
      does not match its files. */
  lemma OutsideBinary(t: Tools, files: map<string, Content>, dirs: set<string>, a: Args, w: Walk, content: Content)
    requires RecordOf(t, files, dirs, a, w).Some? && ParserPath in files && a.contract != Outside
    ensures var outside, more := a.(binary := Outside), files[Outside := content];
            && RecordOf(t, more, dirs, outside, w).Some?
            && var r := RecordOf(t, more, dirs, outside, w).value;
            !FilesMatch(t, AfterWalk(more, outside, w)[a.out := t.render(r)], r)
  {
    var outside, more := a.(binary := Outside), files[Outside := content];
    OutsideIsNotPlain();
    OutsideIsNotOurs(a);
    assert ParserPath != Outside;
    RunnableOutside(t, files, dirs, a, content);
    RecordMatchesFiles(t, more, dirs, outside, w);
  }

  lemma OutsideIsNotOurs(a: Args)
    requires Plain(a.attempts)
    ensures StdoutPath(a) != Outside && StderrPath(a) != Outside
  {
    assert StdoutPath(a)[0] == a.attempts[0] && StderrPath(a)[0] == a.attempts[0];
  }

  lemma RunnableOutside(t: Tools, files: map<string, Content>, dirs: set<string>, a: Args, content: Content)
    requires Runnable(t, files, dirs, a) && !Metadata(Outside) && !Plain(Outside)
    requires StdoutPath(a) != Outside && StderrPath(a) != Outside && a.contract != Outside
    ensures Runnable(t, files[Outside := content], dirs, a.(binary := Outside))
  {
  }

  /** And it stays one when the attempt id ends in a backslash, if that attempt has no
      logs yet; again the receipt does not match its files. */
  lemma BackslashAttempt(t: Tools, files: map<string, Content>, dirs: set<string>, a: Args, w: Walk)
    requires RecordOf(t, files, dirs, a, w).Some? && ParserPath in files && t.revision(files[ParserPath]).Some?
    requires var other := a.(attemptId := a.attemptId + "\\");
             {StdoutPath(other), StderrPath(other)} !! files.Keys + {a.out}
    ensures var other := a.(attemptId := a.attemptId + "\\");
            && RecordOf(t, files, dirs, other, w).Some?
            && var r := RecordOf(t, files, dirs, other, w).value;
            !FilesMatch(t, AfterWalk(files, other, w)[a.out := t.render(r)], r)
  {
    var other := a.(attemptId := a.attemptId + "\\");
    assert other.attemptId[|a.attemptId|] == '\\';
    assert StdoutPath(other) !in files.Keys + {a.out} && StderrPath(other) !in files.Keys + {a.out};
    assert Runnable(t, files, dirs, other);
    assert AfterWalk(files, other, w)[ParserPath] == files[ParserPath];
    RecordMatchesFiles(t, files, dirs, other, w);
  }

  // ----- There are runs to speak of

  lemma ShortIsPlain(path: string)
    requires path != "" && '/' !in path && '\\' !in path && '.' !in path
    ensures Plain(path)
  {
    OnePiece(path, "");
    assert path[0] in path && "" + path == path;
    assert path != ".." && path != ".git" && path != ".gsd" by {
      assert ".."[0] == ".git"[0] == ".gsd"[0] == '.';
    }
  }

  lemma FirstPart(head: string, rest: string)
    requires head != "" && '/' !in head
    ensures Parts(head + ("/" + rest)) == [head] + Parts(rest)
  {
    assert head[|head| - 1] in head;
    PiecesJoin(head, rest, "");
    OnePiece(head, "");
    assert "" + head == head;
  }

  lemma LastPart(tail: string)
    requires tail != "" && '/' !in tail
    ensures Parts(tail) == [tail]
  {
    OnePiece(tail, "");
    assert "" + tail == tail;
  }

  lemma OutputParts(tail: string)
    requires tail != "" && '/' !in tail
    ensures Parts(S23Prefix + tail) == ["prd", "migration", "rust-evidence", "m204-s23-" + tail]
  {
    var last := "m204-s23-" + tail;
    OutputPath(tail);
    FirstPart("prd", "migration" + ("/" + ("rust-evidence" + ("/" + last))));
    FirstPart("migration", "rust-evidence" + ("/" + last));
    FirstPart("rust-evidence", last);
    LastPart(last);
  }

  lemma OutputPath(tail: string)
    ensures S23Prefix + tail == "prd" + ("/" + ("migration" + ("/" + ("rust-evidence" + ("/" + ("m204-s23-" + tail))))))
  {
  }

  lemma OutputIsPlain(tail: string)
    requires tail != "" && '/' !in tail && '\\' !in tail
    ensures Plain(S23Prefix + tail)
  {
    OutputParts(tail);
    assert '\\' !in "prd/migration/rust" + "-evidence/m204-s23-" && S23Prefix == "prd/migration/rust" + "-evidence/m204-s23-";
    assert ("m204-s23-" + tail)[0] == 'm' && "prd"[0] == 'p' && "migration"[0] == 'm' && "rust-evidence"[0] == 'r';
    assert ".."[0] == ".git"[0] == ".gsd"[0] == '.';
    assert (S23Prefix + tail)[0] == 'p';
  }

  const SampleText := "schema: npa-acceptance-contract/v1" + "check_id: c4-live-check"

  function SampleTools(): Tools {
    Tools((c: Content) => "", (argv: seq<string>) => "", (c: Content) => SampleText, (s: string) => Blank,
          (c: Content) => Some(""), (r: Receipt) => [], (c: Content) => None,
          (path: string) => path, (n: int) => "")
  }

  function SampleArgs(): Args {
    Args("n", "b", "r", "g", "c", S23Prefix + "o", "l", S23Prefix + "d", "v", "", "debug", None, 1, 3600, 1,
         "not " + "performance")
  }

  const SampleFiles: map<string, Content> := map["b" := [], "c" := [], ParserPath := []]

  lemma SampleTexts()
    ensures NonPerformance(SampleArgs().claim) && ContractOk(SampleTools(), [])
  {
    assert OccursAt("not " + "performance", "performance", 4) && OccursAt("not " + "performance", "not", 0);
    assert OccursAt(SampleText, "schema: npa-acceptance-contract/v1", 0);
    assert OccursAt(SampleText, "check_id: c4-live-check", |"schema: npa-acceptance-contract/v1"|);
  }

  lemma SamplePaths()
    ensures var a := SampleArgs();
            && Plain(a.binary) && Plain(a.contract) && Plain(a.attempts) && Plain(a.out) && Plain(a.diagnostics)
            && !Metadata(a.root) && !Metadata(a.garantRoot)
  {
    ShortIsPlain("b");
    ShortIsPlain("c");
    ShortIsPlain("l");
    ShortIsPlain("r");
    ShortIsPlain("g");
    OutputIsPlain("o");
    OutputIsPlain("d");
  }

  lemma ParserBegins()
    ensures ParserPath != "" && ParserPath[0] == 'c'
  {
    assert ParserPath == "crates/ln-consultant-parser" + "/src/contour_diagnostics.rs";
  }

  lemma OutputBegins(tail: string)
    ensures (S23Prefix + tail)[0] == 'p'
  {
    OutputPath(tail);
  }

  lemma OutputsDiffer(tail: string, other: string)
    requires tail != other
    ensures S23Prefix + tail != S23Prefix + other
  {
    var n := |S23Prefix|;
    assert (S23Prefix + tail)[n..] == tail && (S23Prefix + other)[n..] == other;
  }

  lemma LogsBegin()
    ensures StdoutPath(SampleArgs())[0] == StderrPath(SampleArgs())[0] == 'l'
  {
  }

  /** None of the paths a run creates is there, by its first character. */
  lemma SampleFresh()
    ensures var a := SampleArgs();
            && a.out != a.diagnostics && {a.out, a.diagnostics, StdoutPath(a), StderrPath(a)} !! SampleFiles.Keys
            && a.out != StdoutPath(a) && a.out != StderrPath(a)
  {
    ParserBegins();
    OutputBegins("o");
    OutputBegins("d");
    OutputsDiffer("o", "d");
    LogsBegin();
    assert SampleFiles.Keys == {"b", "c", ParserPath};
  }

  const SampleDirs: set<string> := {"r", "g"}

  lemma SampleIsRunnable()
    ensures Runnable(SampleTools(), SampleFiles, SampleDirs, SampleArgs())
  {
    SampleTexts();
    SamplePaths();
    SampleFresh();
    assert GoodArguments(SampleArgs()) && SampleArgs().attempts == "l";
  }

  lemma SampleIsRecorded(w: Walk)
    requires w.diagnostics.Some?
    ensures RecordOf(SampleTools(), SampleFiles, SampleDirs, SampleArgs(), w).Some?
  {
    SampleIsRunnable();
    SampleFresh();
  }

  lemma SampleIsVerifiable()
    ensures VerifiableArguments(SampleArgs())
  {
    SampleTexts();
    SamplePaths();
  }

  /** There is a recorded run whose file is accepted, with tools that read back what they write. */
  lemma SomeRunVerifies() returns (t: Tools, w: Walk)
    ensures var files, dirs, a := SampleFiles, SampleDirs, SampleArgs();
            && RecordOf(t, files, dirs, a, w).Some?
            && var r := RecordOf(t, files, dirs, a, w).value;
            t.parse(t.render(r)) == Some(r) && Accepts(t, AfterWalk(files, a, w)[a.out := t.render(r)], a.out, false)
  {
    w := Walk(Exited(0), [], [], Some([]), 0, 0, 0);
    SampleIsRecorded(w);
    SampleIsVerifiable();
    var plain := SampleTools();
    var r := RecordOf(plain, SampleFiles, SampleDirs, SampleArgs(), w).value;
    t := plain.(parse := (c: Content) => Some(r));
    ParsingIsNoMatter(plain, t, SampleFiles, SampleDirs, SampleArgs(), w);
    RunThenVerifyFile(t, SampleFiles, SampleDirs, SampleArgs(), w, false);
  }

  lemma ParsingIsNoMatter(t: Tools, other: Tools, files: map<string, Content>, dirs: set<string>, a: Args, w: Walk)
    requires other == t.(parse := other.parse)
    ensures RecordOf(other, files, dirs, a, w) == RecordOf(t, files, dirs, a, w)
  {
  }
}
