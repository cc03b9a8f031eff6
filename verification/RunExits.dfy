/** What a run of the monitor answers: for each exit and each outcome, exactly when,
    in terms of what was read and of how each step went. */
module RunExits {
  import opened Basics
  import opened Versions
  import opened AdvisoryMonitor
  import opened PublisherSteps

  // ---- what the comparison lets through ----------------------------------

  /** The floor a run sees served: an advisory for this engine with a floor it can
      read, verified where there is something to verify it with. */
  ghost function Seen(cfg: Config, a: Args, d: Disk): Option<Version> {
    if a.publishRoot && d.served.Doc? && d.served.env.engine == "webview2" &&
       (a.signer && a.publicKey ==> Verifies(cfg, d.served.env, a.now))
    then Parse4(d.served.env.floor)
    else None
  }

  /** The last-good file is absent or names a floor. */
  ghost predicate CanRead(d: Disk) {
    d.lastGood.NoRecord? || (d.lastGood.Record? && Parse4(d.lastGood.floor).Some?)
  }

  ghost predicate InReach(cfg: Config, a: Args, v: Version) { v.major <= cfg.baseline.major + a.maxMajorAhead }

  /** Below a floor that is published. */
  ghost predicate Behind(lastGood: Option<Version>, seen: Option<Version>, v: Version) {
    (lastGood.Some? && Less(v, lastGood.value)) || (seen.Some? && Less(v, seen.value))
  }

  /** Above every floor that is seen served, and above last-good; or no lower than
      last-good where a publish root was looked at and nothing valid is served. */
  ghost predicate IsNews(a: Args, lastGood: Option<Version>, seen: Option<Version>, v: Version) {
    && (seen.Some? ==> Less(seen.value, v))
    && (lastGood.Some? ==> Less(lastGood.value, v) || (v == lastGood.value && seen.None? && a.publishRoot))
  }

  ghost predicate LetThrough(cfg: Config, a: Args, lastGood: Option<Version>, seen: Option<Version>, v: Version) {
    InReach(cfg, a, v) && !Less(v, cfg.baseline) && IsNews(a, lastGood, seen, v)
  }

  /** The candidate is put forward to serve something where nothing valid is served
      and nothing lower is published. */
  ghost predicate IsBootstrap(a: Args, lastGood: Option<Version>, seen: Option<Version>, v: Version) {
    a.publishRoot && seen.None? && (lastGood.None? || v == lastGood.value)
  }

  ghost function FloorSeen(sv: ServedState): Option<Version> {
    match sv
    case Valid(f) => Some(f)
    case Unverified(f) => Some(f)
    case _ => None
  }

  lemma SeenIs(cfg: Config, a: Args, d: Disk)
    ensures FloorSeen(LookAtServed(cfg, a, d.served)) == Seen(cfg, a, d)
  {
    hide Parse4, Verifies;
  }

  /** A served file that could not be verified occurs in dry runs alone. */
  ghost predicate Possible(a: Args, sv: ServedState) {
    Accepted(a) && (sv.Unverified? ==> a.dryRun) && (!sv.Absent? ==> a.publishRoot)
  }

  lemma LookIsPossible(cfg: Config, a: Args, f: ServedFile)
    requires Accepted(a)
    ensures Possible(a, LookAtServed(cfg, a, f))
  {
    hide Parse4, Verifies;
  }

  /** The whole comparison, case by case. */
  lemma DecideIff(cfg: Config, a: Args, lastGood: Option<Version>, sv: ServedState, v: Version)
    requires Possible(a, sv)
    ensures var r := Decide(cfg, a, lastGood, sv, v); var seen := FloorSeen(sv);
            && (r.Proceed? <==> LetThrough(cfg, a, lastGood, seen, v))
            && (r.Proceed? ==> r.bootstrap == IsBootstrap(a, lastGood, seen, v))
            && (r == Stop(ExitRefused, PageRefused) <==> !InReach(cfg, a, v))
            && (r == Stop(ExitOk, UnchangedOlder) <==> InReach(cfg, a, v) && Behind(lastGood, seen, v))
            && (r == Stop(ExitOk, UnchangedBelowBaseline) <==>
                  InReach(cfg, a, v) && !Behind(lastGood, seen, v) && Less(v, cfg.baseline))
            && (r == Stop(ExitOk, Unchanged) <==>
                  InReach(cfg, a, v) && !Behind(lastGood, seen, v) && !Less(v, cfg.baseline) &&
                  !IsNews(a, lastGood, seen, v))
            && (r.Stop? ==> r in {Stop(ExitRefused, PageRefused), Stop(ExitOk, UnchangedOlder),
                                  Stop(ExitOk, UnchangedBelowBaseline), Stop(ExitOk, Unchanged)})
  {
    if lastGood.Some? { OrderIsTotal(v, lastGood.value, v); }
    if FloorSeen(sv).Some? { OrderIsTotal(v, FloorSeen(sv).value, v); }
    if lastGood.Some? && FloorSeen(sv).Some? {
      OrderIsTotal(lastGood.value, FloorSeen(sv).value, v);
      OrderIsTotal(FloorSeen(sv).value, lastGood.value, v);
    }
  }

  // ---- the exits of a run ------------------------------------------------

  /** The page named a version and the comparison let it through. */
  ghost predicate GoesOn(cfg: Config, a: Args, d: Disk, ans: Answers) {
    CanRead(d) && ans.found.Names? && LetThrough(cfg, a, LastGoodFloor(d), Seen(cfg, a, d), ans.found.version)
  }

  /** The page, or the version it names, is refused. */
  ghost predicate TurnedAway(cfg: Config, a: Args, ans: Answers) {
    ans.found.BadPage? || (ans.found.Names? && !InReach(cfg, a, ans.found.version))
  }

  /** The catalog lists the build and the evidence is kept. */
  ghost predicate Backed(cfg: Config, a: Args, d: Disk, ans: Answers) {
    GoesOn(cfg, a, d, ans) && ans.catalog == Lists && ans.filed
  }

  ghost predicate SignsFor(cfg: Config, a: Args, d: Disk, ans: Answers) {
    Backed(cfg, a, d, ans) && !a.dryRun && ans.signs && a.signingKey == Some(cfg.key)
  }

  /** The envelope of this run passes its own verification. */
  ghost predicate SelfVerifies(cfg: Config, a: Args, d: Disk, ans: Answers) {
    SignsFor(cfg, a, d, ans) &&
    Verifies(cfg, Envelope("webview2", Join4(ans.found.version), a.now, ans.found.reason, cfg.key), a.now)
  }

  /** A run exits 3 exactly when it could read last-good, keeps its evidence, and
      either turns the page or its version away or finds no row in the catalog. */
  lemma RefusedIff(cfg: Config, a: Args, d: Disk, ans: Answers)
    requires Accepted(a)
    ensures Run(cfg, a, d, ans).exit == ExitRefused <==>
            && CanRead(d) && ans.filed
            && (TurnedAway(cfg, a, ans) || (GoesOn(cfg, a, d, ans) && ans.catalog == NoRow))
  {
    hide Run, GoesOn, Backed, SignsFor, SelfVerifies, Seen, Parse4, Less, IsNews, Behind, IsBootstrap;
    RunCases(cfg, a, d, ans);
  }

  /** Exit 2: one of the two pages could not be fetched. */
  lemma FetchIff(cfg: Config, a: Args, d: Disk, ans: Answers)
    requires Accepted(a)
    ensures Run(cfg, a, d, ans).exit == ExitFetch <==>
            (CanRead(d) && ans.found.NoPage?) || (GoesOn(cfg, a, d, ans) && ans.catalog == NoCatalog)
  {
    hide Run, GoesOn, Backed, SignsFor, SelfVerifies, Seen, Parse4, Less, IsNews, Behind, IsBootstrap;
    RunCases(cfg, a, d, ans);
  }

  /** Exit 5: the signer refused, or the signed envelope did not verify. */
  lemma SignIff(cfg: Config, a: Args, d: Disk, ans: Answers)
    requires Accepted(a)
    ensures Run(cfg, a, d, ans).exit == ExitSign <==>
            && Backed(cfg, a, d, ans) && !a.dryRun
            && (!ans.signs || (a.signingKey == Some(cfg.key) && !SelfVerifies(cfg, a, d, ans)))
  {
    hide Run, GoesOn, Backed, SignsFor, SelfVerifies, Seen, Parse4, Less, IsNews, Behind, IsBootstrap;
    RunCases(cfg, a, d, ans);
  }

  /** Exit 7: last-good cannot be read, evidence cannot be kept, the key is not the
      one to be verified under, or the record failed after the publication. */
  lemma ConfigIff(cfg: Config, a: Args, d: Disk, ans: Answers)
    requires Accepted(a)
    ensures Run(cfg, a, d, ans).exit == ExitConfig <==>
            || !CanRead(d)
            || (!ans.filed && TurnedAway(cfg, a, ans))
            || (!ans.filed && GoesOn(cfg, a, d, ans) && ans.catalog != NoCatalog)
            || (Backed(cfg, a, d, ans) && !a.dryRun && ans.signs && a.signingKey != Some(cfg.key))
            || (SelfVerifies(cfg, a, d, ans) && ans.served == Succeeds && ans.record in {FailsBefore, FailsAfter})
  {
    hide Run, GoesOn, Backed, SignsFor, SelfVerifies, Seen, Parse4, Less, IsNews, Behind, IsBootstrap;
    RunCases(cfg, a, d, ans);
  }

  /** Exit 6: the served file could not be written. */
  lemma PublishIff(cfg: Config, a: Args, d: Disk, ans: Answers)
    requires Accepted(a)
    ensures Run(cfg, a, d, ans).exit == ExitPublish <==>
            SelfVerifies(cfg, a, d, ans) && ans.served in {FailsBefore, FailsAfter}
  {
    hide Run, GoesOn, Backed, SignsFor, SelfVerifies, Seen, Parse4, Less, IsNews, Behind, IsBootstrap;
    RunCases(cfg, a, d, ans);
  }

  lemma DiedIff(cfg: Config, a: Args, d: Disk, ans: Answers)
    requires Accepted(a)
    ensures Run(cfg, a, d, ans).exit == Died <==>
            && SelfVerifies(cfg, a, d, ans)
            && (ans.served in {DiesBefore, DiesAfter} ||
                (ans.served == Succeeds && ans.record in {DiesBefore, DiesAfter}))
  {
    hide Run, GoesOn, Backed, SignsFor, SelfVerifies, Seen, Parse4, Less, IsNews, Behind, IsBootstrap;
    RunCases(cfg, a, d, ans);
  }

  /** Exit 0: one of the seven good outcomes, each exactly when. */
  lemma OkIff(cfg: Config, a: Args, d: Disk, ans: Answers)
    requires Accepted(a)
    ensures var r := Run(cfg, a, d, ans);
            r.exit == ExitOk <==>
            r.outcome in {UnchangedOlder, UnchangedBelowBaseline, Unchanged, WouldRaise, WouldBootstrap,
                          Published, PublishedBootstrap}
    ensures var r := Run(cfg, a, d, ans); var seen := Seen(cfg, a, d); var low := LastGoodFloor(d);
            && r.exit != ExitLocked
            && (r.outcome == UnchangedOlder <==>
                  && CanRead(d) && ans.found.Names? && InReach(cfg, a, ans.found.version)
                  && Behind(low, seen, ans.found.version))
            && (r.outcome == UnchangedBelowBaseline <==>
                  && CanRead(d) && ans.found.Names? && InReach(cfg, a, ans.found.version)
                  && !Behind(low, seen, ans.found.version) && Less(ans.found.version, cfg.baseline))
            && (r.outcome == Unchanged <==>
                  && CanRead(d) && ans.found.Names? && InReach(cfg, a, ans.found.version)
                  && !Behind(low, seen, ans.found.version) && !Less(ans.found.version, cfg.baseline)
                  && !IsNews(a, low, seen, ans.found.version))
            && (r.outcome == WouldBootstrap <==>
                  Backed(cfg, a, d, ans) && a.dryRun && IsBootstrap(a, low, seen, ans.found.version))
            && (r.outcome == WouldRaise <==>
                  Backed(cfg, a, d, ans) && a.dryRun && !IsBootstrap(a, low, seen, ans.found.version))
            && (r.outcome == PublishedBootstrap <==>
                  && SelfVerifies(cfg, a, d, ans) && ans.served == Succeeds && ans.record == Succeeds
                  && IsBootstrap(a, low, seen, ans.found.version))
            && (r.outcome == Published <==>
                  && SelfVerifies(cfg, a, d, ans) && ans.served == Succeeds && ans.record == Succeeds
                  && !IsBootstrap(a, low, seen, ans.found.version))
  {
    hide Run, GoesOn, Backed, SignsFor, SelfVerifies, Seen, Parse4, Less, IsNews, Behind, IsBootstrap;
    RunCases(cfg, a, d, ans);
  }

  /** And each other outcome goes with its exit. */
  lemma OutcomeOfExit(cfg: Config, a: Args, d: Disk, ans: Answers)
    requires Accepted(a)
    ensures var r := Run(cfg, a, d, ans);
            && (r.exit == ExitFetch <==> r.outcome == FetchFailed)
            && (r.exit == ExitRefused <==> r.outcome == PageRefused)
            && (r.exit == ExitSign <==> r.outcome == SignRefused)
            && (r.exit == ExitPublish <==> r.outcome == PublishFailed)
            && (r.exit == ExitConfig <==> r.outcome in {ConfigError, InternalError})
            && (r.exit == Died <==> r.outcome == Killed)
  {
    hide Run, GoesOn, Backed, SignsFor, SelfVerifies, Seen, Parse4, Less, IsNews, Behind, IsBootstrap;
    RunCases(cfg, a, d, ans);
  }

  /** The case of a run, by how far it gets. */
  datatype Case =
    | NotReadable | NoNotes | BadNotes | OutOfReach | Older | BelowBaseline | Same
    | NoSecondPage | NoListing | NotFiled | DryRun | NotSigned | ForeignKey | NotVerified | Writing

  ghost function CaseOf(cfg: Config, a: Args, d: Disk, ans: Answers): Case {
    if !CanRead(d) then NotReadable
    else if ans.found.NoPage? then NoNotes
    else if ans.found.BadPage? then BadNotes
    else
      var v, low, seen := ans.found.version, LastGoodFloor(d), Seen(cfg, a, d);
      if !InReach(cfg, a, v) then OutOfReach
      else if Behind(low, seen, v) then Older
      else if Less(v, cfg.baseline) then BelowBaseline
      else if !IsNews(a, low, seen, v) then Same
      else if ans.catalog.NoCatalog? then NoSecondPage
      else if ans.catalog.NoRow? then NoListing
      else if !ans.filed then NotFiled
      else if a.dryRun then DryRun
      else if !ans.signs then NotSigned
      else if a.signingKey != Some(cfg.key) then ForeignKey
      else if !SelfVerifies(cfg, a, d, ans) then NotVerified
      else Writing
  }

  /** What is not behind what is published is news exactly when it is let through. */
  lemma NewsIsNotBehind(a: Args, lastGood: Option<Version>, seen: Option<Version>, v: Version)
    requires IsNews(a, lastGood, seen, v)
    ensures !Behind(lastGood, seen, v)
  {
    if lastGood.Some? { OrderIsTotal(v, lastGood.value, v); }
    if seen.Some? { OrderIsTotal(v, seen.value, v); }
  }

  /** The cases say how far a run gets. */
  lemma CasesSayHowFar(cfg: Config, a: Args, d: Disk, ans: Answers)
    ensures var c := CaseOf(cfg, a, d, ans);
            && (GoesOn(cfg, a, d, ans) <==>
                  c in {NoSecondPage, NoListing, NotFiled, DryRun, NotSigned, ForeignKey, NotVerified, Writing})
            && (Backed(cfg, a, d, ans) <==> c in {DryRun, NotSigned, ForeignKey, NotVerified, Writing})
            && (SignsFor(cfg, a, d, ans) <==> c in {NotVerified, Writing})
            && (SelfVerifies(cfg, a, d, ans) <==> c == Writing)
  {
    hide Parse4, Verifies, Seen, Less;
    if ans.found.Names? && IsNews(a, LastGoodFloor(d), Seen(cfg, a, d), ans.found.version) {
      NewsIsNotBehind(a, LastGoodFloor(d), Seen(cfg, a, d), ans.found.version);
    }
  }

  /** Exit and outcome of each case. */
  ghost function AnswerOf(cfg: Config, a: Args, d: Disk, ans: Answers, c: Case): (Exit, Outcome)
    requires c in {DryRun, Writing} ==> ans.found.Names?
  {
    match c
    case NotReadable => (ExitConfig, ConfigError)
    case NoNotes => (ExitFetch, FetchFailed)
    case BadNotes => if ans.filed then (ExitRefused, PageRefused) else (ExitConfig, InternalError)
    case OutOfReach => if ans.filed then (ExitRefused, PageRefused) else (ExitConfig, InternalError)
    case Older => (ExitOk, UnchangedOlder)
    case BelowBaseline => (ExitOk, UnchangedBelowBaseline)
    case Same => (ExitOk, Unchanged)
    case NoSecondPage => (ExitFetch, FetchFailed)
    case NoListing => if ans.filed then (ExitRefused, PageRefused) else (ExitConfig, InternalError)
    case NotFiled => (ExitConfig, InternalError)
    case DryRun =>
      if IsBootstrap(a, LastGoodFloor(d), Seen(cfg, a, d), ans.found.version) then (ExitOk, WouldBootstrap)
      else (ExitOk, WouldRaise)
    case NotSigned => (ExitSign, SignRefused)
    case ForeignKey => (ExitConfig, ConfigError)
    case NotVerified => (ExitSign, SignRefused)
    case Writing =>
      if ans.served in {FailsBefore, FailsAfter} then (ExitPublish, PublishFailed)
      else if ans.served in {DiesBefore, DiesAfter} then (Died, Killed)
      else if ans.record in {FailsBefore, FailsAfter} then (ExitConfig, InternalError)
      else if ans.record in {DiesBefore, DiesAfter} then (Died, Killed)
      else if IsBootstrap(a, LastGoodFloor(d), Seen(cfg, a, d), ans.found.version) then (ExitOk, PublishedBootstrap)
      else (ExitOk, Published)
  }

  lemma RunCases(cfg: Config, a: Args, d: Disk, ans: Answers)
    requires Accepted(a)
    ensures var c := CaseOf(cfg, a, d, ans);
            && (c in {DryRun, Writing} ==> ans.found.Names?)
            && (Run(cfg, a, d, ans).exit, Run(cfg, a, d, ans).outcome) == AnswerOf(cfg, a, d, ans, c)
    ensures var c := CaseOf(cfg, a, d, ans);
            && (GoesOn(cfg, a, d, ans) <==>
                  c in {NoSecondPage, NoListing, NotFiled, DryRun, NotSigned, ForeignKey, NotVerified, Writing})
            && (Backed(cfg, a, d, ans) <==> c in {DryRun, NotSigned, ForeignKey, NotVerified, Writing})
            && (SignsFor(cfg, a, d, ans) <==> c in {NotVerified, Writing})
            && (SelfVerifies(cfg, a, d, ans) <==> c == Writing)
  {
    hide Parse4, Verifies, Seen, Less, Decide, LookAtServed, IsNews, Behind, InReach, Possible;
    CasesSayHowFar(cfg, a, d, ans);
    SeenIs(cfg, a, d);
    LookIsPossible(cfg, a, d.served);
    if ans.found.Names? {
      DecideIff(cfg, a, LastGoodFloor(d), LookAtServed(cfg, a, d.served), ans.found.version);
      if IsNews(a, LastGoodFloor(d), Seen(cfg, a, d), ans.found.version) {
        NewsIsNotBehind(a, LastGoodFloor(d), Seen(cfg, a, d), ans.found.version);
      }
    }
  }

  // ---- the same for one process among many --------------------------------

  /** After the notes page, whatever the process has read: it goes on exactly when
      its version is let through, and otherwise exits as a run does. */
  lemma FoundExits(cfg: Config, a: Args, lastGood: Option<Version>, sv: ServedState, found: Found, filed: bool)
    requires Possible(a, sv)
    ensures var pc := OnFound(cfg, a, KnowsBoth(lastGood, sv), found, filed); var seen := FloorSeen(sv);
            var refused := found.BadPage? || (found.Names? && !InReach(cfg, a, found.version));
            && (pc.Exited? || pc.Chosen?)
            && (pc.Chosen? <==> found.Names? && LetThrough(cfg, a, lastGood, seen, found.version))
            && (pc.Chosen? ==> pc == Chosen(found.version, found.reason, IsBootstrap(a, lastGood, seen, found.version)))
            && (pc == Exited(ExitFetch, FetchFailed) <==> found.NoPage?)
            && (pc == Exited(ExitRefused, PageRefused) <==> refused && filed)
            && (pc == Exited(ExitConfig, InternalError) <==> refused && !filed)
            && (pc.Exited? && !found.NoPage? && !refused ==>
                  pc.exit == ExitOk && pc.outcome in {UnchangedOlder, UnchangedBelowBaseline, Unchanged})
  {
    hide Decide, Possible, Less, IsNews, Behind, IsBootstrap;
    if found.Names? { DecideIff(cfg, a, lastGood, sv, found.version); }
  }

  lemma CatalogExits(a: Args, v: Version, reason: string, bootstrap: bool, says: CatalogSays, filed: bool)
    requires bootstrap ==> a.publishRoot
    ensures var pc := OnCatalog(a, Chosen(v, reason, bootstrap), says, filed);
            && (pc == Cleared(v, reason, bootstrap) <==> says == Lists && filed && !a.dryRun)
            && (pc == Exited(ExitFetch, FetchFailed) <==> says == NoCatalog)
            && (pc == Exited(ExitRefused, PageRefused) <==> says == NoRow && filed)
            && (pc == Exited(ExitConfig, InternalError) <==> says != NoCatalog && !filed)
            && (pc == Exited(ExitOk, WouldBootstrap) <==> says == Lists && filed && a.dryRun && bootstrap)
            && (pc == Exited(ExitOk, WouldRaise) <==> says == Lists && filed && a.dryRun && !bootstrap)
  {}

  /** Signing goes on with an envelope that verifies, and exits 5 or 7 otherwise. */
  lemma SignExits(cfg: Config, a: Args, v: Version, reason: string, bootstrap: bool, signs: bool)
    ensures var pc := OnSign(cfg, a, Cleared(v, reason, bootstrap), signs);
            var e := Envelope("webview2", Join4(v), a.now, reason, cfg.key);
            && (pc == Signed(v, bootstrap, e) <==> signs && a.signingKey == Some(cfg.key) && Verifies(cfg, e, a.now))
            && (pc == Exited(ExitSign, SignRefused) <==>
                  !signs || (a.signingKey == Some(cfg.key) && !Verifies(cfg, e, a.now)))
            && (pc == Exited(ExitConfig, ConfigError) <==> signs && a.signingKey != Some(cfg.key))
  {
    hide Verifies;
  }

  /** The two writes: done, failed or fatal, and the file changed exactly when the
      rename had happened. */
  lemma WriteExits(cfg: Config, d: Disk, a: Args, p: Pid, v: Version, b: bool, e: Envelope, how: Write)
    ensures var t := Local(cfg, d, Proc(a, Signed(v, b, e)), Replace(p, how)).value;
            && (t.1 == InPlace(v, b, e) <==> how == Succeeds)
            && (t.1 == Exited(ExitPublish, PublishFailed) <==> how in {FailsBefore, FailsAfter})
            && (t.1 == Exited(Died, Killed) <==> how in {DiesBefore, DiesAfter})
            && t.0 == if how in {Succeeds, FailsAfter, DiesAfter} then Disk(Doc(e), d.lastGood) else d
    ensures var t := Local(cfg, d, Proc(a, InPlace(v, b, e)), WriteRecord(p, how)).value;
            && (t.1 == Exited(ExitOk, PublishedBootstrap) <==> how == Succeeds && b)
            && (t.1 == Exited(ExitOk, Published) <==> how == Succeeds && !b)
            && (t.1 == Exited(ExitConfig, InternalError) <==> how in {FailsBefore, FailsAfter})
            && (t.1 == Exited(Died, Killed) <==> how in {DiesBefore, DiesAfter})
            && t.0 == if how in {Succeeds, FailsAfter, DiesAfter} then Disk(d.served, Record(Join4(v), e)) else d
  {}

  /** The lock: free, it is taken; held, the process exits 4; an exited or dead
      holder's is freed; and a process ends by abort or crash as such. */
  lemma LockSteps(cfg: Config, s: State, p: Pid)
    requires p in s.procs
    ensures var t := Next(cfg, s, TakeLock(p));
            && (s.procs[p].pc.Started? && s.lock == None ==> t.lock == Some(p) && t.procs[p].pc == HoldsLock)
            && (s.procs[p].pc.Started? && s.lock != None ==>
                  t.lock == s.lock && t.procs[p].pc == Exited(ExitLocked, LockHeld))
            && t.disk == s.disk && t.log == s.log
    ensures s.procs[p].pc.Exited? && s.lock == Some(p) ==> Next(cfg, s, Release(p)) == s.(lock := None)
    ensures Critical(s.procs[p].pc) ==>
              Next(cfg, s, Abort(p)) ==
                s.(procs := s.procs[p := s.procs[p].(pc := Exited(ExitConfig, InternalError))])
    ensures !s.procs[p].pc.Exited? ==>
              Next(cfg, s, Crash(p)) == s.(procs := s.procs[p := s.procs[p].(pc := Exited(Died, Killed))])
  {}

  lemma LaunchAndLoss(cfg: Config, s: State, p: Pid, a: Args)
    ensures p !in s.procs && Accepted(a) ==> Next(cfg, s, Launch(p, a)) == s.(procs := s.procs[p := Proc(a, Started)])
    ensures Next(cfg, s, LoseServed) == s.(disk := Disk(NoFile, s.disk.lastGood))
  {}

  /** A process that exits 2, 3, 4 or 5, or 0 without a publication, has put nothing in
      place; nor has one that has not come to the replace. */
  lemma ExitsWithoutPublication(cfg: Config, s: State, p: Pid, i: nat)
    requires Inv(cfg, s) && p in s.procs && i < |s.log|
    requires var pc := s.procs[p].pc;
             || (pc.Exited? && pc.exit in {ExitFetch, ExitRefused, ExitLocked, ExitSign})
             || (pc.Exited? && pc.exit == ExitOk &&
                 pc.outcome in {UnchangedOlder, UnchangedBelowBaseline, Unchanged, WouldRaise, WouldBootstrap})
             || pc.Started? || pc.HoldsLock? || pc.KnowsLastGood? || pc.KnowsBoth? || pc.Chosen? || pc.Cleared? || pc.Signed?
    ensures s.log[i].author != p
  {
    hide ProcOk, Consistent;
    SilentExitsWroteNothing(cfg, s, p, i);
  }

  // ---- what a client accepts ---------------------------------------------

  /** A verified advisory, clause by clause: signed by the key, for this engine, a
      floor of four fields that is not all zeros and at most 24 majors past the
      compiled one, a date that is not zero and at most seven days ahead, and a
      reason of at most 200 characters, none of them a control or a deceptive one. */
  lemma VerifiesIff(cfg: Config, e: Envelope, now: nat)
    ensures Verifies(cfg, e, now) <==>
            && e.signer == cfg.key && e.engine == "webview2"
            && (exists v :: Parse4(e.floor) == Some(v) && Version(0, 0, 0, 0) != v &&
                            v.major <= cfg.baseline.major + 24 && v.major < 0x1_0000_0000)
            && 1 <= e.publishedAt < 0x1_0000_0000_0000_0000 && now < 0x1_0000_0000_0000_0000
            && e.publishedAt <= now + 604800
            && |e.reason| <= 200 && forall i :: 0 <= i < |e.reason| ==> CleanCode(e.reason[i] as int)
  {
    forall c ensures IsControl(c) || IsDeceptive(c) <==> !CleanCode(c as int) { CodesOf(c); }
    forall i | 0 <= i < |e.reason| ensures e.reason[i] in e.reason {}
    if Parse4(e.floor).Some? { ParsedSurvivesPersistence(e.floor); }
  }

  /** Neither C0, DEL, C1 nor a character that hides or reorders text. */
  ghost predicate CleanCode(x: int) {
    && 32 <= x && !(127 <= x < 160) && x != 173
    && !(0x200B <= x <= 0x200F) && !(0x2028 <= x <= 0x202E) && !(0x2066 <= x <= 0x2069) && x != 0xFEFF
  }

  lemma CodesOf(c: char)
    ensures IsControl(c) || IsDeceptive(c) <==> !CleanCode(c as int)
  {}
}
