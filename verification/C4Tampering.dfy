/** What a verified receipt vouches for: which changes to the receipt or to the files leave
    it verified. */
module C4Tampering {
  import opened Sequences
  import opened C4Receipt
  import WalkMachine

  // ----- Changing the files

  /** The files a receipt pins. */
  function PinnedPaths(r: Receipt): set<string> {
    {r.binary.path, r.contract.path, r.logs.stdout, r.logs.stderr, r.observed.diagnostics, ParserPath}
  }

  /** What is demanded of a file beyond its digest. */
  predicate ReadsAsBefore(t: Tools, r: Receipt, path: string, content: Content) {
    && (path == r.observed.diagnostics ==> ReaderAgrees(t, content, r.observed))
    && (path == ParserPath ==> t.revision(content) == Some(r.parserRevision))
  }

  lemma PinnedAfter(t: Tools, files: map<string, Content>, path: string, content: Content, pin: string, sha: string)
    requires Pinned(t, files, pin, sha)
    ensures Pinned(t, files[path := content], pin, sha) <==> (path == pin ==> Sha(t, content) == sha)
  {
  }

  /** A pinned file can be replaced only by one with the same digest, which must read the same
      where the verifier reads it; a file that is not pinned can hold anything. */
  lemma ChangedFile(t: Tools, files: map<string, Content>, r: Receipt, path: string, content: Content)
    requires Verified(t, files, r)
    ensures PinnedPaths(r) <= files.Keys
    ensures path !in PinnedPaths(r) ==> Verified(t, files[path := content], r)
    ensures path in PinnedPaths(r) ==>
              (Verified(t, files[path := content], r) <==>
               Sha(t, content) == Sha(t, files[path]) && ReadsAsBefore(t, r, path, content))
  {
    PinnedAfter(t, files, path, content, r.binary.path, r.binary.sha);
    PinnedAfter(t, files, path, content, r.contract.path, r.contract.sha);
    PinnedAfter(t, files, path, content, r.logs.stdout, r.logs.stdoutSha);
    PinnedAfter(t, files, path, content, r.logs.stderr, r.logs.stderrSha);
    PinnedAfter(t, files, path, content, r.observed.diagnostics, r.logs.diagnosticsSha.value);
  }

  /** Without one of them nothing verifies. */
  lemma MissingFile(t: Tools, files: map<string, Content>, r: Receipt, path: string)
    requires Verified(t, files, r) && path in PinnedPaths(r)
    ensures !Verified(t, files - {path}, r)
  {
  }

  // ----- Changing the receipt

  lemma AcceptanceTells(a: bool, b: bool)
    ensures Acceptance(a) == Acceptance(b) <==> a == b
  {
    assert "non-pass"[0] != "pass"[0];
  }

  /** The identity of the attempt, the pins, the revisions and the claim stand in for one
      another or for a file: none can be changed alone. */
  lemma ChangedPins(t: Tools, files: map<string, Content>, r: Receipt, s: string, build: BuildInputs, claims: Claims)
    requires Verified(t, files, r)
    ensures Verified(t, files, r.(schema := s)) <==> s == r.schema
    ensures Verified(t, files, r.(attemptId := s)) <==> s == r.attemptId
    ensures Verified(t, files, r.(binaryProfile := s)) <==> s == r.binaryProfile
    ensures Verified(t, files, r.(sourceRevision := s)) <==> s == r.sourceRevision
    ensures Verified(t, files, r.(parserRevision := s)) <==> s == r.parserRevision
    ensures Verified(t, files, r.(build := build)) <==> build == r.build
    ensures Verified(t, files, r.(claims := claims)) <==> claims == r.claims
  {
  }

  lemma ChangedIdentity(t: Tools, files: map<string, Content>, r: Receipt, identity: Identity, argv: seq<string>)
    requires Verified(t, files, r)
    ensures Verified(t, files, r.(identity := identity)) <==> identity == r.identity
    ensures Verified(t, files, r.(argv := argv)) <==> argv != [] && t.argvHash(argv) == t.argvHash(r.argv)
  {
  }

  /** A pin can only be moved to another file of the repository with the same digest. */
  lemma MovedPins(t: Tools, files: map<string, Content>, r: Receipt, pin: Pin)
    requires Verified(t, files, r)
    ensures Verified(t, files, r.(binary := pin)) <==> pin.sha == r.binary.sha && Pinned(t, files, pin.path, pin.sha)
    ensures Verified(t, files, r.(contract := pin)) <==> pin.sha == r.contract.sha && Pinned(t, files, pin.path, pin.sha)
    ensures Verified(t, files, r.(logs := r.logs.(stdout := pin.path, stdoutSha := pin.sha))) <==> Pinned(t, files, pin.path, pin.sha)
    ensures Verified(t, files, r.(logs := r.logs.(stderr := pin.path, stderrSha := pin.sha))) <==> Pinned(t, files, pin.path, pin.sha)
  {
  }

  /** Digest and count are those of the diagnostics, and so is their pin. */
  lemma ChangedFindings(t: Tools, files: map<string, Content>, r: Receipt, digest: Option<string>, lines: int, sha: Option<string>)
    requires Verified(t, files, r)
    ensures Verified(t, files, r.(observed := r.observed.(digest := digest))) <==> digest == r.observed.digest
    ensures Verified(t, files, r.(observed := r.observed.(lines := lines))) <==> lines == r.observed.lines
    ensures Verified(t, files, r.(logs := r.logs.(diagnosticsSha := sha))) <==> sha == r.logs.diagnosticsSha
  {
  }

  /** What a receipt says about the walk itself is bound to nothing but its own form and its
      claim: the corpus, the duration and the binding can be rewritten as long as the receipt
      passes exactly if it did. */
  lemma ChangedFacts(t: Tools, files: map<string, Content>, r: Receipt, corpus: Corpus, durationMs: int, budgetSeconds: int)
    requires Verified(t, files, r)
    ensures Verified(t, files, r.(corpus := corpus)) <==> Passes(r.(corpus := corpus)) == Passes(r)
    ensures Verified(t, files, r.(durationMs := durationMs)) <==>
            durationMs >= 0 && Passes(r.(durationMs := durationMs)) == Passes(r)
    ensures Verified(t, files, r.(budgetSeconds := budgetSeconds)) <==> budgetSeconds >= 3600
  {
    AcceptanceTells(Passes(r), Passes(r.(corpus := corpus)));
    AcceptanceTells(Passes(r), Passes(r.(durationMs := durationMs)));
  }

  lemma ChangedBinding(t: Tools, files: map<string, Content>, r: Receipt, binding: Binding, terminal: Terminal)
    requires Verified(t, files, r)
    ensures Verified(t, files, r.(binding := binding)) <==>
            && binding.binaryProfile == r.binaryProfile && binding.sourceRevision == r.sourceRevision
            && binding.jobs >= 0 && (binding.limit.Some? ==> binding.limit.value >= 0)
            && Passes(r.(binding := binding)) == Passes(r)
    ensures Verified(t, files, r.(terminal := terminal)) <==>
            && terminal.error.None? && (terminal.outcome == "complete" ==> terminal.exitCode == Some(0))
            && (terminal.timeout <==> terminal.outcome == "timeout")
            && Passes(r.(terminal := terminal)) == Passes(r)
  {
    AcceptanceTells(Passes(r), Passes(r.(binding := binding)));
    AcceptanceTells(Passes(r), Passes(r.(terminal := terminal)));
  }

  // ----- The attempt id

  /** The controller takes exactly the attempt ids that the runner takes and whose logs the
      verifier lets a receipt pin. */
  lemma SafeIdsCanBePinned(a: Args, id: string)
    requires GoodArguments(a) && Plain(a.attempts) && a.attempts[|a.attempts| - 1] != '/'
    ensures var b := a.(attemptId := id);
            WalkMachine.SafeId(id) <==> GoodArguments(b) && Plain(StdoutPath(b)) && Plain(StderrPath(b))
  {
    var b := a.(attemptId := id);
    if GoodArguments(b) { LogsArePlain(b); }
    if WalkMachine.SafeId(id) { LogsArePlain(b); }
  }
}
