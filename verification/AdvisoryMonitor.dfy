/** One run of the engine-advisory monitor: what it reads, what it decides, and
    what it leaves in the served manifest and in last-good, on every exit and
    at every point where the process can die. */
module AdvisoryMonitor {
  import opened Basics
  import opened Versions
  import opened AdvisoryPage

  // ---- documents and the verifier ----------------------------------------

  type Key = nat

  /** A signed advisory; `signer` is the verifying half of the key that signed. */
  datatype Envelope = Envelope(
    engine: string, floor: string, publishedAt: nat, reason: string, signer: Key)

  datatype ServedFile = NoFile | Unrecognised | Doc(env: Envelope)

  /** last-good.json; a record names the envelope it was written for. */
  datatype LastGoodFile = NoRecord | Malformed | Record(floor: string, envelope: Envelope)

  datatype Disk = Disk(served: ServedFile, lastGood: LastGoodFile)

  /** What stays fixed from run to run: the compiled floor and the verifying key. */
  datatype Config = Config(baseline: Version, key: Key)

  const ENGINE := "webview2"
  const MAX_MAJOR_AHEAD: nat := 24
  const MAX_FUTURE_SECONDS: nat := 7 * 24 * 60 * 60
  const MAX_REASON_CHARS: nat := 200
  const U64_MAX: nat := 0xFFFF_FFFF_FFFF_FFFF
  const ZERO := Version(0, 0, 0, 0)

  function Least(a: nat, b: nat): nat { if a <= b then a else b }

  predicate IsControl(c: char) { c < ' ' || '\U{7F}' <= c <= '\U{9F}' }

  predicate IsDeceptive(c: char) {
    || '\U{202A}' <= c <= '\U{202E}' || '\U{2066}' <= c <= '\U{2069}'
    || '\U{200B}' <= c <= '\U{200F}' || c in {'\U{2028}', '\U{2029}', '\U{AD}', '\U{FEFF}'}
  }

  /** Signature, schema and the client's bound on majors: everything the
      verifier asks that does not depend on the clock. */
  predicate Authentic(cfg: Config, e: Envelope) {
    && e.signer == cfg.key
    && e.engine == ENGINE
    && Parse4(e.floor).Some? && Parse4(e.floor).value != ZERO
    && 0 < e.publishedAt <= U64_MAX
    && |e.reason| <= MAX_REASON_CHARS
    && (forall c :: c in e.reason ==> !IsControl(c) && !IsDeceptive(c))
    && Parse4(e.floor).value.major <= Least(U32_MAX, cfg.baseline.major + MAX_MAJOR_AHEAD)
  }

  /** Not dated further ahead of the clock than a client tolerates. */
  predicate Timely(e: Envelope, now: nat) {
    now <= U64_MAX && e.publishedAt <= Least(U64_MAX, now + MAX_FUTURE_SECONDS)
  }

  /** `verify-advisory` accepts. */
  predicate Verifies(cfg: Config, e: Envelope, now: nat) { Authentic(cfg, e) && Timely(e, now) }

  /** The floor of an authentic served manifest. */
  function ServedFloor(cfg: Config, d: Disk): Option<Version> {
    if d.served.Doc? && Authentic(cfg, d.served.env) then Parse4(d.served.env.floor) else None
  }

  function LastGoodFloor(d: Disk): Option<Version> {
    if d.lastGood.Record? then Parse4(d.lastGood.floor) else None
  }

  predicate AboveOrNone(low: Option<Version>, v: Version) { low.Some? ==> AtMost(low.value, v) }

  /** The invariant nothing in the code states: last-good can be read, and an
      authentic served manifest is never below it. */
  ghost predicate Consistent(cfg: Config, d: Disk) {
    && (d.lastGood.NoRecord? || LastGoodFloor(d).Some?)
    && (ServedFloor(cfg, d).Some? ==> AboveOrNone(LastGoodFloor(d), ServedFloor(cfg, d).value))
  }

  // ---- arguments, exits --------------------------------------------------

  /** `signingKey` is the verifying half of the key file named by --key. */
  datatype Args = Args(
    dryRun: bool, publishRoot: bool, signer: bool, publicKey: bool,
    signingKey: Option<Key>, maxMajorAhead: int, now: nat)

  /** What `parse_args` lets through. */
  predicate Accepted(a: Args) {
    a.dryRun || (a.signingKey.Some? && a.signer && a.publishRoot && a.publicKey)
  }

  datatype Exit = ExitOk | ExitFetch | ExitRefused | ExitLocked | ExitSign | ExitPublish | ExitConfig | Died

  datatype Outcome =
    | FetchFailed | PageRefused | UnchangedOlder | UnchangedBelowBaseline | Unchanged
    | WouldRaise | WouldBootstrap | SignRefused | PublishFailed | ConfigError | InternalError
    | Published | PublishedBootstrap | LockHeld | Killed

  // ---- reading and deciding ----------------------------------------------

  datatype ServedState = Absent | Invalid | Valid(floor: Version) | Unverified(floor: Version)

  function LookAtServed(cfg: Config, a: Args, f: ServedFile): ServedState {
    if !a.publishRoot || f.NoFile? then Absent
    else if f.Unrecognised? || f.env.engine != ENGINE || Parse4(f.env.floor).None? then Invalid
    else
      var floor := Parse4(f.env.floor).value;
      if a.signer && a.publicKey then
        if Verifies(cfg, f.env, a.now) then Valid(floor) else Invalid
      else Unverified(floor)
  }

  function Current(lastGood: Option<Version>, sv: ServedState): Option<Version> {
    var seen := if sv.Valid? || sv.Unverified? then Some(sv.floor) else None;
    if lastGood.None? then seen
    else if seen.None? then lastGood
    else Some(Max(lastGood.value, seen.value))
  }

  datatype Decision = Stop(exit: Exit, outcome: Outcome) | Proceed(bootstrap: bool)

  predicate ServedCounts(a: Args, sv: ServedState) { sv.Valid? || (sv.Unverified? && a.dryRun) }

  function Bootstraps(a: Args, sv: ServedState, current: Option<Version>, v: Version): bool {
    a.publishRoot && !ServedCounts(a, sv) && (current.None? || v == current.value)
  }

  /** Steps 2 and 3 of a run: the client's bound, then the comparison with what
      has been published, then the bootstrap rule. */
  function Decide(cfg: Config, a: Args, lastGood: Option<Version>, sv: ServedState, v: Version): Decision {
    var current := Current(lastGood, sv);
    var bootstrap := Bootstraps(a, sv, current, v);
    if v.major > cfg.baseline.major + a.maxMajorAhead then Stop(ExitRefused, PageRefused)
    else if current.Some? && Less(v, current.value) then Stop(ExitOk, UnchangedOlder)
    else if Less(v, cfg.baseline) then Stop(ExitOk, UnchangedBelowBaseline)
    else if current == Some(v) && !bootstrap then Stop(ExitOk, Unchanged)
    else if bootstrap && sv.Unverified? then Stop(ExitConfig, ConfigError)
    else Proceed(bootstrap)
  }

  /** The refusal to replace an unverifiable served file cannot be reached: a
      live run always verifies, and a dry run counts the file as existing. */
  lemma UnverifiedRefusalIsDead(cfg: Config, a: Args, lastGood: Option<Version>, f: ServedFile, v: Version)
    requires Accepted(a)
    ensures Decide(cfg, a, lastGood, LookAtServed(cfg, a, f), v) != Stop(ExitConfig, ConfigError)
  {}

  /** What may be put in place: within the client's bound, no lower than the
      compiled floor, and no lower than anything counted as published. */
  lemma ProceedIsBounded(cfg: Config, a: Args, lastGood: Option<Version>, sv: ServedState, v: Version)
    requires Decide(cfg, a, lastGood, sv, v).Proceed?
    ensures AtMost(cfg.baseline, v) && v.major <= cfg.baseline.major + a.maxMajorAhead
    ensures AboveOrNone(lastGood, v)
    ensures sv.Valid? || sv.Unverified? ==> AtMost(sv.floor, v)
    ensures Accepted(a) && sv.Valid? ==> Less(sv.floor, v)
  {}

  // ---- signing and writing -----------------------------------------------

  function EnvelopeFor(v: Version, reason: string, now: nat, signer: Key): Envelope {
    Envelope(ENGINE, Join4(v), now, reason, signer)
  }

  function RecordFor(v: Version, e: Envelope): LastGoodFile { Record(Join4(v), e) }

  /** How an atomic write can go: the rename and the directory sync may fail or
      the process may die on either side of the rename. */
  datatype Write = Succeeds | FailsBefore | FailsAfter | DiesBefore | DiesAfter

  predicate Takes(w: Write) { w in {Succeeds, FailsAfter, DiesAfter} }

  datatype Found = NoPage | BadPage | Names(version: Version, reason: string)
  datatype CatalogSays = NoCatalog | NoRow | Lists

  /** What the rest of the machine does during one run; `filed` says that the
      evidence and the candidate payload can be written to the state directory. */
  datatype Answers = Answers(
    found: Found, catalog: CatalogSays, filed: bool, signs: bool, served: Write, record: Write)

  /** A refusal keeps its evidence first; failing to is an internal error. */
  function RefusalExit(filed: bool): Exit { if filed then ExitRefused else ExitConfig }

  function RefusalOutcome(filed: bool): Outcome { if filed then PageRefused else InternalError }

  function StopExit(decision: Decision, filed: bool): Exit
    requires decision.Stop?
  {
    if decision.exit == ExitRefused then RefusalExit(filed) else decision.exit
  }

  function StopOutcome(decision: Decision, filed: bool): Outcome
    requires decision.Stop?
  {
    if decision.exit == ExitRefused then RefusalOutcome(filed) else decision.outcome
  }

  datatype RunResult = RunResult(disk: Disk, exit: Exit, outcome: Outcome)

  /** Publishing a signed envelope: replace the served file, then record. */
  function PublishAndRecord(d: Disk, v: Version, e: Envelope, bootstrap: bool, served: Write, record: Write): RunResult {
    var d1 := if Takes(served) then d.(served := Doc(e)) else d;
    if served.FailsBefore? || served.FailsAfter? then RunResult(d1, ExitPublish, PublishFailed)
    else if served != Succeeds then RunResult(d1, Died, Killed)
    else
      var d2 := if Takes(record) then d1.(lastGood := RecordFor(v, e)) else d1;
      if record.FailsBefore? || record.FailsAfter? then RunResult(d2, ExitConfig, InternalError)
      else if record != Succeeds then RunResult(d2, Died, Killed)
      else RunResult(d2, ExitOk, if bootstrap then PublishedBootstrap else Published)
  }

  /** Steps 4 to 7, once the comparison has let the candidate through. */
  function CarryOut(cfg: Config, a: Args, d: Disk, v: Version, bootstrap: bool, ans: Answers): RunResult
    requires ans.found.Names?
  {
    if ans.catalog.NoCatalog? then RunResult(d, ExitFetch, FetchFailed)
    else if ans.catalog.NoRow? then RunResult(d, RefusalExit(ans.filed), RefusalOutcome(ans.filed))
    else if !ans.filed then RunResult(d, ExitConfig, InternalError)
    else if a.dryRun then RunResult(d, ExitOk, if bootstrap && a.publishRoot then WouldBootstrap else WouldRaise)
    else if !(a.signingKey.Some? && a.signer && a.publishRoot && a.publicKey) then
      RunResult(d, ExitConfig, ConfigError)
    else if !ans.signs then RunResult(d, ExitSign, SignRefused)
    else if a.signingKey.value != cfg.key then RunResult(d, ExitConfig, ConfigError)
    else
      var e := EnvelopeFor(v, ans.found.reason, a.now, a.signingKey.value);
      if !Verifies(cfg, e, a.now) then RunResult(d, ExitSign, SignRefused)
      else PublishAndRecord(d, v, e, bootstrap, ans.served, ans.record)
  }

  /** Two more branches no accepted arguments reach: a dry run that is to bootstrap
      without a publish root, and a live run without one of its four options; so
      the only configuration error past the comparison is a foreign key. */
  lemma MissingOptionsAreDead(
    cfg: Config, a: Args, d: Disk, lastGood: Option<Version>, sv: ServedState, ans: Answers)
    requires Accepted(a) && ans.found.Names? && Decide(cfg, a, lastGood, sv, ans.found.version).Proceed?
    ensures var b := Decide(cfg, a, lastGood, sv, ans.found.version).bootstrap;
            var r := CarryOut(cfg, a, d, ans.found.version, b, ans);
            && (r.outcome == WouldRaise ==> !b)
            && (r.outcome == ConfigError <==>
                  ans.catalog.Lists? && ans.filed && !a.dryRun && ans.signs && a.signingKey != Some(cfg.key))
  {}

  /** The whole run as a function of the disk and of what the world answers. */
  function Run(cfg: Config, a: Args, d: Disk, ans: Answers): RunResult {
    if d.lastGood.Malformed? || (d.lastGood.Record? && LastGoodFloor(d).None?) then
      RunResult(d, ExitConfig, ConfigError)
    else if ans.found.NoPage? then RunResult(d, ExitFetch, FetchFailed)
    else if ans.found.BadPage? then RunResult(d, RefusalExit(ans.filed), RefusalOutcome(ans.filed))
    else
      var v := ans.found.version;
      var decision := Decide(cfg, a, LastGoodFloor(d), LookAtServed(cfg, a, d.served), v);
      if decision.Stop? then RunResult(d, StopExit(decision, ans.filed), StopOutcome(decision, ans.filed))
      else CarryOut(cfg, a, d, v, decision.bootstrap, ans)
  }

  // ---- what every run keeps ----------------------------------------------

  /** The page parser hands on only versions that survive persistence. */
  ghost predicate Faithful(ans: Answers) { ans.found.Names? ==> Readable(ans.found.version) }

  /** This run gets as far as putting its envelope in place. */
  predicate Publishes(cfg: Config, a: Args, d: Disk, ans: Answers) {
    && (d.lastGood.NoRecord? || LastGoodFloor(d).Some?)
    && ans.found.Names? && ans.catalog.Lists? && ans.filed && !a.dryRun && ans.signs
    && a.signingKey == Some(cfg.key)
    && Decide(cfg, a, LastGoodFloor(d), LookAtServed(cfg, a, d.served), ans.found.version).Proceed?
    && Verifies(cfg, RunEnvelope(cfg, a, ans), a.now)
  }

  function RunEnvelope(cfg: Config, a: Args, ans: Answers): Envelope
    requires ans.found.Names?
  {
    EnvelopeFor(ans.found.version, ans.found.reason, a.now, cfg.key)
  }

  /** A run either leaves the disk alone or publishes its candidate. */
  lemma RunShape(cfg: Config, a: Args, d: Disk, ans: Answers)
    requires Accepted(a)
    ensures !Publishes(cfg, a, d, ans) ==>
              Run(cfg, a, d, ans).disk == d && Run(cfg, a, d, ans).exit !in {ExitPublish, Died}
    ensures Publishes(cfg, a, d, ans) ==>
              var v := ans.found.version;
              var sv := LookAtServed(cfg, a, d.served);
              var b := Decide(cfg, a, LastGoodFloor(d), sv, v).bootstrap;
              && Run(cfg, a, d, ans) ==
                   PublishAndRecord(d, v, RunEnvelope(cfg, a, ans), b, ans.served, ans.record)
              && AtMost(cfg.baseline, v) && v.major <= cfg.baseline.major + a.maxMajorAhead
              && AboveOrNone(LastGoodFloor(d), v)
              && (sv.Valid? ==> AtMost(sv.floor, v))
  {
    if Publishes(cfg, a, d, ans) {
      ProceedIsBounded(cfg, a, LastGoodFloor(d), LookAtServed(cfg, a, d.served), ans.found.version);
    }
  }

  /** Publishing at or above last-good keeps the two files consistent and
      last-good rising, wherever the two writes stop. */
  lemma PublishingKeepsConsistent(cfg: Config, d: Disk, v: Version, e: Envelope, b: bool, w: Write, w': Write)
    requires Consistent(cfg, d) && AboveOrNone(LastGoodFloor(d), v)
    requires Readable(v) && e.floor == Join4(v)
    ensures var d' := PublishAndRecord(d, v, e, b, w, w').disk;
            Consistent(cfg, d') && Rises(LastGoodFloor(d), LastGoodFloor(d'))
  {
    var d1 := d.(served := Doc(e));
    var d2 := d1.(lastGood := RecordFor(v, e));
    assert Parse4(e.floor) == Some(v);
    assert LastGoodFloor(d2) == Some(v);
    assert Consistent(cfg, d1) && Consistent(cfg, d2);
  }

  predicate Rises(low: Option<Version>, high: Option<Version>) {
    low.Some? ==> high.Some? && AtMost(low.value, high.value)
  }

  /** Every run, wherever it dies or fails, keeps the two files consistent, and
      last-good never moves down. */
  lemma RunKeepsConsistent(cfg: Config, a: Args, d: Disk, ans: Answers)
    requires Consistent(cfg, d) && Accepted(a) && Faithful(ans)
    ensures Consistent(cfg, Run(cfg, a, d, ans).disk)
    ensures Rises(LastGoodFloor(d), LastGoodFloor(Run(cfg, a, d, ans).disk))
  {
    RunShape(cfg, a, d, ans);
    if Publishes(cfg, a, d, ans) {
      var v := ans.found.version;
      var b := Decide(cfg, a, LastGoodFloor(d), LookAtServed(cfg, a, d.served), v).bootstrap;
      PublishingKeepsConsistent(cfg, d, v, RunEnvelope(cfg, a, ans), b, ans.served, ans.record);
    }
  }

  /** Whatever a run puts in place verifies, is at or above the compiled floor
      and last-good, and within the client's bound. */
  lemma PublicationIsBounded(cfg: Config, a: Args, d: Disk, ans: Answers)
    requires Accepted(a) && Faithful(ans)
    requires Run(cfg, a, d, ans).disk.served != d.served
    ensures ans.found.Names? && Publishes(cfg, a, d, ans)
    ensures var v := ans.found.version; var f := Run(cfg, a, d, ans).disk.served;
            && f == Doc(RunEnvelope(cfg, a, ans))
            && Verifies(cfg, f.env, a.now) && Parse4(f.env.floor) == Some(v)
            && AtMost(cfg.baseline, v) && AboveOrNone(LastGoodFloor(d), v)
            && v.major <= cfg.baseline.major + a.maxMajorAhead
            && v.major <= cfg.baseline.major + MAX_MAJOR_AHEAD
  {
    RunShape(cfg, a, d, ans);
    assert Parse4(RunEnvelope(cfg, a, ans).floor) == Some(ans.found.version);
  }

  /** Exits 2, 3 and 5 leave both files as they were, exit 6 leaves last-good,
      and last-good changes only after the envelope it names is in place. */
  lemma QuietExits(cfg: Config, a: Args, d: Disk, ans: Answers)
    requires Accepted(a)
    ensures var r := Run(cfg, a, d, ans);
            && (r.exit in {ExitFetch, ExitRefused, ExitSign} || a.dryRun ==> r.disk == d)
            && (r.exit == ExitPublish ==> r.disk.lastGood == d.lastGood)
            && (r.disk.lastGood != d.lastGood ==>
                  && r.disk.lastGood.Record? && r.disk.served == Doc(r.disk.lastGood.envelope)
                  && Verifies(cfg, r.disk.lastGood.envelope, a.now))
            && (r.exit == ExitOk && r.disk != d ==> r.outcome in {Published, PublishedBootstrap})
  {
    RunShape(cfg, a, d, ans);
  }

  /** What the outcome says about a publication: a bootstrap puts in place a floor
      no lower than any published where nothing valid was served, anything else
      published is strictly above all that counts as published. */
  lemma RaiseOrBootstrap(cfg: Config, a: Args, d: Disk, ans: Answers)
    requires Accepted(a) && !a.dryRun && Run(cfg, a, d, ans).outcome in {Published, PublishedBootstrap}
    ensures ans.found.Names?
    ensures var v := ans.found.version;
            var sv := LookAtServed(cfg, a, d.served);
            var current := Current(LastGoodFloor(d), sv);
            if Run(cfg, a, d, ans).outcome == PublishedBootstrap
            then !sv.Valid? && (current == None || current == Some(v))
            else current.Some? && Less(current.value, v)
  {
    hide Parse4, Verifies;
    RunShape(cfg, a, d, ans);
  }

  /** "unchanged" means served: the only published floor that can equal the
      candidate without a bootstrap is the verified served one. */
  lemma UnchangedMeansServed(cfg: Config, a: Args, d: Disk, ans: Answers)
    requires Consistent(cfg, d) && Accepted(a) && !a.dryRun
    requires Run(cfg, a, d, ans).outcome == Unchanged
    ensures ans.found.Names? && ServedFloor(cfg, d) == Some(ans.found.version)
    ensures Run(cfg, a, d, ans).disk == d
  {
    hide Parse4, Timely;
  }

  /** Once an envelope is in place, even if the run then died before recording
      it, a live run on the same page writes neither file. */
  lemma RerunWritesNothing(cfg: Config, a: Args, d: Disk, ans: Answers, a': Args, ans': Answers)
    requires Consistent(cfg, d) && Accepted(a) && Faithful(ans)
    requires Run(cfg, a, d, ans).disk.served != d.served
    requires Accepted(a') && !a'.dryRun && a.now <= a'.now + MAX_FUTURE_SECONDS && a'.now <= U64_MAX
    requires a'.maxMajorAhead >= a.maxMajorAhead && ans'.found == ans.found
    ensures var d1 := Run(cfg, a, d, ans).disk;
            Run(cfg, a', d1, ans') == RunResult(d1, ExitOk, Unchanged)
  {
    hide Split, PublishAndRecord, CarryOut, IsControl, IsDeceptive;
    PublicationIsBounded(cfg, a, d, ans);
    RunKeepsConsistent(cfg, a, d, ans);
  }

  // ---- the served floor --------------------------------------------------

  /** The authentic served floor does not go down (or away). */
  ghost predicate NotLowered(cfg: Config, d: Disk, d': Disk) {
    Rises(ServedFloor(cfg, d), ServedFloor(cfg, d'))
  }

  /** The served manifest is not dated too far ahead of this run's clock. */
  predicate ClockAgrees(cfg: Config, d: Disk, now: nat) {
    ServedFloor(cfg, d).Some? ==> Timely(d.served.env, now)
  }

  lemma RunDoesNotLower(cfg: Config, a: Args, d: Disk, ans: Answers)
    requires Accepted(a) && Faithful(ans) && ClockAgrees(cfg, d, a.now)
    ensures NotLowered(cfg, d, Run(cfg, a, d, ans).disk)
  {
    RunShape(cfg, a, d, ans);
    if Run(cfg, a, d, ans).disk.served != d.served {
      PublicationIsBounded(cfg, a, d, ans);
    }
  }

  /** The lowest version a run may publish over a file it does not count. */
  function LowestOpen(cfg: Config, d: Disk): Version {
    var low := Max(Version(0, 0, 0, 1), cfg.baseline);
    if LastGoodFloor(d).Some? then Max(low, LastGoodFloor(d).value) else low
  }

  /** Exactly when a live run can lower an authentic served floor: its clock is
      more than seven days behind the manifest's date, and there is room below
      that floor and above both last-good and the compiled floor. */
  lemma RollbackPossibleIff(cfg: Config, a: Args, d: Disk)
    requires Consistent(cfg, d) && Accepted(a) && !a.dryRun && Readable(cfg.baseline)
    requires a.signingKey == Some(cfg.key) && 0 < a.now <= U64_MAX
    requires ServedFloor(cfg, d).Some?
    ensures (exists ans :: Faithful(ans) && !NotLowered(cfg, d, Run(cfg, a, d, ans).disk)) <==>
            && !Timely(d.served.env, a.now)
            && Less(LowestOpen(cfg, d), ServedFloor(cfg, d).value)
            && LowestOpen(cfg, d).major <= cfg.baseline.major + a.maxMajorAhead
  {
    var low := LowestOpen(cfg, d);
    var f := ServedFloor(cfg, d).value;
    forall ans | Faithful(ans) && !NotLowered(cfg, d, Run(cfg, a, d, ans).disk)
      ensures !Timely(d.served.env, a.now) && Less(low, f) && low.major <= cfg.baseline.major + a.maxMajorAhead
    {
      LoweringNeeds(cfg, a, d, ans);
    }
    if !Timely(d.served.env, a.now) && Less(low, f) && low.major <= cfg.baseline.major + a.maxMajorAhead {
      var ans := LoweringWitness(cfg, a, d);
    }
  }

  lemma LoweringNeeds(cfg: Config, a: Args, d: Disk, ans: Answers)
    requires Accepted(a) && Faithful(ans) && ServedFloor(cfg, d).Some?
    requires !NotLowered(cfg, d, Run(cfg, a, d, ans).disk)
    ensures !Timely(d.served.env, a.now)
    ensures Less(LowestOpen(cfg, d), ServedFloor(cfg, d).value)
    ensures LowestOpen(cfg, d).major <= cfg.baseline.major + a.maxMajorAhead
  {
    if Timely(d.served.env, a.now) { RunDoesNotLower(cfg, a, d, ans); }
    PublicationIsBounded(cfg, a, d, ans);
    var v := ans.found.version;
    assert ServedFloor(cfg, Run(cfg, a, d, ans).disk) == Some(v);
    assert AtMost(Version(0, 0, 0, 1), v);
    assert AtMost(LowestOpen(cfg, d), v);
  }

  lemma LoweringWitness(cfg: Config, a: Args, d: Disk) returns (ans: Answers)
    requires Consistent(cfg, d) && Accepted(a) && !a.dryRun && Readable(cfg.baseline)
    requires a.signingKey == Some(cfg.key) && 0 < a.now <= U64_MAX
    requires ServedFloor(cfg, d).Some? && !Timely(d.served.env, a.now)
    requires Less(LowestOpen(cfg, d), ServedFloor(cfg, d).value)
    requires LowestOpen(cfg, d).major <= cfg.baseline.major + a.maxMajorAhead
    ensures Faithful(ans) && !NotLowered(cfg, d, Run(cfg, a, d, ans).disk)
  {
    ans := OpenIsPublished(cfg, a, d);
  }

  /** Where nothing served counts, a run can publish the lowest open version. */
  lemma OpenIsPublished(cfg: Config, a: Args, d: Disk) returns (ans: Answers)
    requires Consistent(cfg, d) && Accepted(a) && !a.dryRun && Readable(cfg.baseline)
    requires a.signingKey == Some(cfg.key) && 0 < a.now <= U64_MAX
    requires LookAtServed(cfg, a, d.served) in {Absent, Invalid}
    requires LowestOpen(cfg, d).major <= cfg.baseline.major + a.maxMajorAhead
    requires LowestOpen(cfg, d).major <= cfg.baseline.major + MAX_MAJOR_AHEAD
    ensures Faithful(ans)
    ensures var d' := Run(cfg, a, d, ans).disk;
            d'.served.Doc? && ServedFloor(cfg, d') == Some(LowestOpen(cfg, d))
  {
    hide Split, Decide;
    var low := LowestOpen(cfg, d);
    LowestOpenIsReadable(cfg, d);
    ans := Answers(Names(low, "CVE"), Lists, true, true, Succeeds, Succeeds);
    FreshEnvelopeVerifies(cfg, low, a.now);
    UncountedFileIsOpen(cfg, a, d);
    assert Publishes(cfg, a, d, ans);
    RunShape(cfg, a, d, ans);
    assert Run(cfg, a, d, ans).disk.served == Doc(RunEnvelope(cfg, a, ans));
  }

  lemma FreshEnvelopeVerifies(cfg: Config, v: Version, now: nat)
    requires Readable(v) && v != ZERO && 0 < now <= U64_MAX
    requires v.major <= cfg.baseline.major + MAX_MAJOR_AHEAD
    ensures Verifies(cfg, EnvelopeFor(v, "CVE", now, cfg.key), now)
    ensures Parse4(EnvelopeFor(v, "CVE", now, cfg.key).floor) == Some(v)
  {
    PersistsIff(v);
  }

  /** Over a file that does not count, the lowest open version is let through. */
  lemma UncountedFileIsOpen(cfg: Config, a: Args, d: Disk)
    requires Consistent(cfg, d) && Accepted(a) && !a.dryRun
    requires LookAtServed(cfg, a, d.served) in {Absent, Invalid}
    requires LowestOpen(cfg, d).major <= cfg.baseline.major + a.maxMajorAhead
    ensures Decide(cfg, a, LastGoodFloor(d), LookAtServed(cfg, a, d.served), LowestOpen(cfg, d)).Proceed?
  {}

  lemma LowestOpenIsReadable(cfg: Config, d: Disk)
    requires Consistent(cfg, d) && Readable(cfg.baseline)
    ensures Readable(LowestOpen(cfg, d))
  {
    PersistsIff(Version(0, 0, 0, 1));
    Join4Length(Version(0, 0, 0, 1));
    if LastGoodFloor(d).Some? { ParsedSurvivesPersistence(d.lastGood.floor); }
  }

  // ---- sequences of runs -------------------------------------------------

  /** One entry of the timer's history: a run, or the served file being lost. */
  datatype Event = ARun(args: Args, answers: Answers) | ServedLost

  function After(cfg: Config, d: Disk, e: Event): Disk {
    match e
    case ARun(a, ans) => Run(cfg, a, d, ans).disk
    case ServedLost => d.(served := NoFile)
  }

  function AfterAll(cfg: Config, d: Disk, es: seq<Event>): Disk
    decreases |es|
  {
    if es == [] then d else AfterAll(cfg, After(cfg, d, es[0]), es[1..])
  }

  ghost predicate Proper(es: seq<Event>) {
    forall i :: 0 <= i < |es| && es[i].ARun? ==> Accepted(es[i].args) && Faithful(es[i].answers)
  }

  ghost predicate NoLoss(es: seq<Event>) { forall i :: 0 <= i < |es| ==> es[i].ARun? }

  /** The runs' clocks never go back. */
  ghost predicate ClockForward(es: seq<Event>) {
    forall i, j :: 0 <= i <= j < |es| && es[i].ARun? && es[j].ARun? ==>
      es[i].args.now <= es[j].args.now <= U64_MAX
  }

  ghost predicate DatedBy(d: Disk, now: nat) {
    d.served.Doc? ==> d.served.env.publishedAt <= now + MAX_FUTURE_SECONDS
  }

  /** Over any history of runs on a clock that does not go back, whatever each
      run met and wherever it died, the served floor never goes down. */
  lemma {:induction false} HistoryNeverLowersServed(cfg: Config, d: Disk, es: seq<Event>)
    requires Proper(es) && NoLoss(es) && ClockForward(es)
    requires es != [] ==> DatedBy(d, es[0].args.now)
    ensures NotLowered(cfg, d, AfterAll(cfg, d, es))
    decreases |es|
  {
    if es != [] {
      var a := es[0].args;
      var d1 := After(cfg, d, es[0]);
      assert forall i :: 0 <= i < |es| - 1 ==> es[1..][i] == es[i + 1];
      ServedIsOldOrFresh(cfg, a, d, es[0].answers);
      if |es| > 1 { assert a.now <= es[1].args.now; }
      HistoryNeverLowersServed(cfg, d1, es[1..]);
      if ServedFloor(cfg, d).Some? {
        ClockAgreesFrom(cfg, d, a.now);
        RunDoesNotLower(cfg, a, d, es[0].answers);
        OrderIsTotal(ServedFloor(cfg, d).value, ServedFloor(cfg, d1).value,
                     ServedFloor(cfg, AfterAll(cfg, d1, es[1..])).value);
      }
    }
  }

  lemma ClockAgreesFrom(cfg: Config, d: Disk, now: nat)
    requires DatedBy(d, now) && now <= U64_MAX
    ensures ClockAgrees(cfg, d, now)
  {}

  lemma ServedIsOldOrFresh(cfg: Config, a: Args, d: Disk, ans: Answers)
    ensures var f := Run(cfg, a, d, ans).disk.served;
            f == d.served || (f.Doc? && f.env.publishedAt == a.now)
  {}

  /** With losses of the served file allowed anywhere: the files stay
      consistent and last-good only rises, so every later publication is at or
      above every earlier last-good. */
  lemma {:induction false} HistoryNeverLowersLastGood(cfg: Config, d: Disk, es: seq<Event>)
    requires Consistent(cfg, d) && Proper(es)
    ensures var d' := AfterAll(cfg, d, es);
            Consistent(cfg, d') && Rises(LastGoodFloor(d), LastGoodFloor(d'))
    decreases |es|
  {
    if es != [] {
      var d1 := After(cfg, d, es[0]);
      if es[0].ARun? { RunKeepsConsistent(cfg, es[0].args, d, es[0].answers); }
      assert Proper(es[1..]) by { assert forall i :: 0 <= i < |es| - 1 ==> es[1..][i] == es[i + 1]; }
      HistoryNeverLowersLastGood(cfg, d1, es[1..]);
      if LastGoodFloor(d).Some? {
        OrderIsTotal(LastGoodFloor(d).value, LastGoodFloor(d1).value,
                     LastGoodFloor(AfterAll(cfg, d1, es[1..])).value);
      }
    }
  }

  lemma LaterPublicationsAreAboveLastGood(cfg: Config, d: Disk, es: seq<Event>, a: Args, ans: Answers)
    requires Consistent(cfg, d) && Proper(es) && Accepted(a) && Faithful(ans)
    requires LastGoodFloor(d).Some?
    requires var d1 := AfterAll(cfg, d, es); Run(cfg, a, d1, ans).disk.served != d1.served
    ensures var d1 := AfterAll(cfg, d, es);
            ServedFloor(cfg, Run(cfg, a, d1, ans).disk).Some? &&
            AtMost(LastGoodFloor(d).value, ServedFloor(cfg, Run(cfg, a, d1, ans).disk).value)
  {
    HistoryNeverLowersLastGood(cfg, d, es);
    PublicationIsBounded(cfg, a, AfterAll(cfg, d, es), ans);
  }

  // ---- failing exits ------------------------------------------------------

  /** A run never puts in place what is already served. */
  lemma PublicationIsNew(cfg: Config, a: Args, d: Disk, ans: Answers)
    requires Accepted(a) && Faithful(ans) && Publishes(cfg, a, d, ans)
    ensures d.served != Doc(RunEnvelope(cfg, a, ans))
  {
    hide PublishAndRecord, CarryOut, Split, Join4;
    assert Parse4(RunEnvelope(cfg, a, ans).floor) == Some(ans.found.version);
  }

  /** Exactly when a run that did not end well has nevertheless changed what is
      served: exit 6 when the directory sync failed after the rename, exit 7 when
      it got as far as publishing at all, a death when the rename had happened. */
  lemma FailedRunPublishedIff(cfg: Config, a: Args, d: Disk, ans: Answers)
    requires Accepted(a) && Faithful(ans)
    ensures var r := Run(cfg, a, d, ans);
            && (r.exit == ExitPublish ==> (r.disk.served != d.served <==> ans.served == FailsAfter))
            && (r.exit == ExitConfig ==> (r.disk.served != d.served <==> Publishes(cfg, a, d, ans)))
            && (r.exit == Died ==> (r.disk.served != d.served <==> ans.served != DiesBefore))
  {
    RunShape(cfg, a, d, ans);
    if Publishes(cfg, a, d, ans) { PublicationIsNew(cfg, a, d, ans); }
  }

  /** Both happen: for any run that publishes when all goes well, some way for its
      writes to fail gives exit 6, and another exit 7, with the manifest served. */
  lemma FailedRunMayHavePublished(cfg: Config, a: Args, d: Disk, ans: Answers)
    requires Accepted(a) && Faithful(ans) && Publishes(cfg, a, d, ans)
    ensures var r := Run(cfg, a, d, ans.(served := FailsAfter));
            r.exit == ExitPublish && r.disk.served == Doc(RunEnvelope(cfg, a, ans)) != d.served
    ensures var r := Run(cfg, a, d, ans.(served := Succeeds, record := FailsBefore));
            r.exit == ExitConfig && r.disk.served == Doc(RunEnvelope(cfg, a, ans)) != d.served
  {
    var synced, unrecorded := ans.(served := FailsAfter), ans.(served := Succeeds, record := FailsBefore);
    PublicationIsNew(cfg, a, d, ans);
    RunShape(cfg, a, d, synced);
    RunShape(cfg, a, d, unrecorded);
  }

  // ---- publishing below an earlier publication ---------------------------

  /** After the disk d, some history ends in a run that publishes below v. */
  ghost predicate MayPublishBelow(cfg: Config, d: Disk, v: Version) {
    exists es, a, ans :: LaterRunPublishesBelow(cfg, d, es, a, ans, v)
  }

  ghost predicate LaterRunPublishesBelow(cfg: Config, d: Disk, es: seq<Event>, a: Args, ans: Answers, v: Version) {
    && Proper(es) && Accepted(a) && Faithful(ans)
    && var before := AfterAll(cfg, d, es);
       var after := Run(cfg, a, before, ans).disk;
       after.served != before.served && ServedFloor(cfg, after).Some? && Less(ServedFloor(cfg, after).value, v)
  }

  lemma BelowNeedsRoom(cfg: Config, d: Disk, es: seq<Event>, a: Args, ans: Answers, v: Version)
    requires Consistent(cfg, d) && LaterRunPublishesBelow(cfg, d, es, a, ans, v)
    ensures Less(LowestOpen(cfg, d), v)
  {
    var before := AfterAll(cfg, d, es);
    HistoryNeverLowersLastGood(cfg, d, es);
    PublicationIsBounded(cfg, a, before, ans);
    assert AtMost(Version(0, 0, 0, 1), ans.found.version);
    if LastGoodFloor(d).Some? {
      OrderIsTotal(LastGoodFloor(d).value, LastGoodFloor(before).value, ans.found.version);
    }
    OrderIsTotal(LowestOpen(cfg, d), ans.found.version, v);
  }

  /** Once the served file is lost, the lowest open version can be published. */
  lemma RoomIsUsed(cfg: Config, d: Disk, v: Version)
    requires Consistent(cfg, d) && Readable(cfg.baseline)
    requires Less(LowestOpen(cfg, d), v) && v.major <= cfg.baseline.major + MAX_MAJOR_AHEAD
    ensures MayPublishBelow(cfg, d, v)
  {
    hide Parse4, Decide, Publishes, Verifies, CarryOut;
    var lost := d.(served := NoFile);
    var a := Args(false, true, true, true, Some(cfg.key), MAX_MAJOR_AHEAD, 1);
    var ans := OpenIsPublished(cfg, a, lost);
    assert [ServedLost][1..] == [];
    assert AfterAll(cfg, d, [ServedLost]) == lost;
    assert LaterRunPublishesBelow(cfg, d, [ServedLost], a, ans, v);
  }

  /** "Nothing is ever published below" what was: exactly when it can fail. After
      a run that put v in place, some history ends in a publication below v if and
      only if the run did not record v and a version below v is open. */
  lemma LaterMayBeBelowIff(cfg: Config, a: Args, d: Disk, ans: Answers)
    requires Consistent(cfg, d) && Accepted(a) && Faithful(ans) && Readable(cfg.baseline)
    requires Run(cfg, a, d, ans).disk.served != d.served
    ensures ans.found.Names?
    ensures MayPublishBelow(cfg, Run(cfg, a, d, ans).disk, ans.found.version) <==>
            !(ans.served.Succeeds? && Takes(ans.record)) && Less(LowestOpen(cfg, d), ans.found.version)
  {
    RunShape(cfg, a, d, ans);
    PublicationIsBounded(cfg, a, d, ans);
    RunKeepsConsistent(cfg, a, d, ans);
    var v, d1 := ans.found.version, Run(cfg, a, d, ans).disk;
    assert Parse4(Join4(v)) == Some(v);
    if ans.served.Succeeds? && Takes(ans.record) {
      assert LastGoodFloor(d1) == Some(v);
      assert AtMost(v, LowestOpen(cfg, d1));
    } else {
      assert d1.lastGood == d.lastGood;
    }
    forall es, b, later | LaterRunPublishesBelow(cfg, d1, es, b, later, v) ensures Less(LowestOpen(cfg, d1), v) {
      BelowNeedsRoom(cfg, d1, es, b, later, v);
    }
    if Less(LowestOpen(cfg, d1), v) { RoomIsUsed(cfg, d1, v); }
  }

  // ---- the run as the program performs it --------------------------------

  datatype Fetched = Unavailable | NotText | Page(text: string)
  datatype CatalogPage = CatalogUnavailable | Rows(hasTable: bool, rows: seq<Row>)

  /** Everything outside the process: the two sites, the scanner, how CVEs are
      joined into a reason, whether the signer signs, and the two writes. */
  datatype World = World(
    notes: Fetched, scanner: Scanner, catalog: Version -> CatalogPage, reason: set<string> -> string,
    today: int, filed: bool, signs: bool, served: Write, record: Write)

  ghost predicate WellFormed(w: World) {
    forall b {:trigger w.scanner.headings(b)} :: InOrder(w.scanner.headings(b), |b|)
  }

  ghost predicate IsFound(w: World, f: Found) {
    match w.notes
    case Unavailable => f == NoPage
    case NotText => f == BadPage
    case Page(text) =>
      || (f == BadPage && forall c :: !PutsForward(text, w.scanner, w.today, c))
      || (exists c :: PutsForward(text, w.scanner, w.today, c) && f == Names(c.version, w.reason(c.cves)))
  }

  ghost predicate IsCatalog(w: World, v: Version, s: CatalogSays) {
    var page := w.catalog(v);
    if page.CatalogUnavailable? then s == NoCatalog
    else s == if page.hasTable && exists i: nat :: Corroborated(page.rows, v, w.today, i) then Lists else NoRow
  }

  /** The answers this world gives. */
  ghost predicate AnswersOf(w: World, ans: Answers) {
    && IsFound(w, ans.found)
    && (ans.found.Names? ==> IsCatalog(w, ans.found.version, ans.catalog))
    && ans.filed == w.filed && ans.signs == w.signs && ans.served == w.served && ans.record == w.record
  }

  /** The monitor's two files and its status, updated step by step. */
  class Monitor {
    const cfg: Config
    var served: ServedFile
    var lastGood: LastGoodFile
    var outcome: Outcome
    var locked: bool

    constructor (cfg: Config, d: Disk)
      ensures this.cfg == cfg && Files() == d && !locked
    {
      this.cfg := cfg;
      served, lastGood, outcome, locked := d.served, d.lastGood, InternalError, false;
    }

    function Files(): Disk
      reads this
    {
      Disk(served, lastGood)
    }

    /** `main`: a run that does not get the lock leaves everything alone. */
    method Invoke(a: Args, w: World) returns (exit: Exit)
      requires Accepted(a) && WellFormed(w)
      modifies this
      ensures locked == old(locked)
      ensures old(locked) ==> exit == ExitLocked && Files() == old(Files())
      ensures !old(locked) ==>
                exists ans :: AnswersOf(w, ans) && Faithful(ans) &&
                              RunResult(Files(), exit, outcome) == Run(cfg, a, old(Files()), ans)
    {
      if locked {
        outcome := LockHeld;
        return ExitLocked;
      }
      locked := true;
      ghost var ans;
      exit, ans := Perform(a, w);
      locked := false;
    }

    method Perform(a: Args, w: World) returns (exit: Exit, ghost ans: Answers)
      requires Accepted(a) && WellFormed(w)
      modifies this`served, this`lastGood, this`outcome
      ensures AnswersOf(w, ans) && Faithful(ans)
      ensures RunResult(Files(), exit, outcome) == Run(cfg, a, old(Files()), ans)
    {
      hide Decide, CarryOut, Verifies, Parse4, LookAtServed, IsFound, IsCatalog;
      ans := SomeAnswers(w);
      if lastGood.Malformed? || (lastGood.Record? && Parse4(lastGood.floor).None?) {
        outcome := ConfigError;
        return ExitConfig, ans;
      }
      var lastGoodFloor := if lastGood.Record? then Parse4(lastGood.floor) else None;
      var sv := LookAtServed(cfg, a, served);
      var found := ReadNotes(w);
      FoundIsUnique(w, found, ans.found);
      if !found.Names? {
        outcome := if found.NoPage? then FetchFailed else RefusalOutcome(w.filed);
        exit := if found.NoPage? then ExitFetch else RefusalExit(w.filed);
        return;
      }
      var decision := Decide(cfg, a, lastGoodFloor, sv, found.version);
      if decision.Stop? {
        outcome := StopOutcome(decision, w.filed);
        exit := StopExit(decision, w.filed);
        return;
      }
      exit := Proceed(a, w, found.version, found.reason, decision.bootstrap, ans);
    }

    /** Steps 4 to 6: corroborate, stop a dry run, sign and self-verify. */
    method Proceed(a: Args, w: World, v: Version, reason: string, bootstrap: bool, ghost ans: Answers)
      returns (exit: Exit)
      requires Accepted(a) && ans.found == Names(v, reason) && AnswersOf(w, ans)
      modifies this`served, this`lastGood, this`outcome
      ensures RunResult(Files(), exit, outcome) == CarryOut(cfg, a, old(Files()), v, bootstrap, ans)
    {
      var page := w.catalog(v);
      if page.CatalogUnavailable? {
        outcome := FetchFailed;
        return ExitFetch;
      }
      var row := CorroborateCatalog(page.hasTable, page.rows, v, w.today);
      if row.Refused? {
        outcome := RefusalOutcome(w.filed);
        return RefusalExit(w.filed);
      }
      if !w.filed {
        outcome := InternalError;
        return ExitConfig;
      }
      if a.dryRun {
        outcome := if bootstrap && a.publishRoot then WouldBootstrap else WouldRaise;
        return ExitOk;
      }
      if !w.signs {
        outcome := SignRefused;
        return ExitSign;
      }
      if a.signingKey.value != cfg.key {
        outcome := ConfigError;
        return ExitConfig;
      }
      var envelope := EnvelopeFor(v, reason, a.now, a.signingKey.value);
      if !Verifies(cfg, envelope, a.now) {
        outcome := SignRefused;
        return ExitSign;
      }
      exit := Publish(v, envelope, bootstrap, w.served, w.record);
    }

    /** Step 7: the atomic replace, then the record. */
    method Publish(v: Version, e: Envelope, bootstrap: bool, serve: Write, record: Write) returns (exit: Exit)
      modifies this`served, this`lastGood, this`outcome
      ensures RunResult(Files(), exit, outcome) ==
              PublishAndRecord(old(Files()), v, e, bootstrap, serve, record)
    {
      if Takes(serve) { served := Doc(e); }
      if serve != Succeeds {
        var died := serve.DiesBefore? || serve.DiesAfter?;
        outcome := if died then Killed else PublishFailed;
        return if died then Died else ExitPublish;
      }
      if Takes(record) { lastGood := RecordFor(v, e); }
      if record != Succeeds {
        var died := record.DiesBefore? || record.DiesAfter?;
        outcome := if died then Killed else InternalError;
        return if died then Died else ExitConfig;
      }
      outcome := if bootstrap then PublishedBootstrap else Published;
      return ExitOk;
    }
  }

  lemma SomeAnswers(w: World) returns (ans: Answers)
    ensures AnswersOf(w, ans) && Faithful(ans)
  {
    hide PutsForward, Corroborated, Parse4;
    var found := BadPage;
    if w.notes.Unavailable? {
      found := NoPage;
    } else if w.notes.Page? {
      if c :| PutsForward(w.notes.text, w.scanner, w.today, c) {
        found := Names(c.version, w.reason(c.cves));
        PutsForwardUnique(w.notes.text, w.scanner, w.today, c, c);
      }
    }
    var catalog := NoCatalog;
    if found.Names? && w.catalog(found.version).Rows? {
      var page := w.catalog(found.version);
      catalog := if page.hasTable && exists i: nat :: Corroborated(page.rows, found.version, w.today, i)
                 then Lists else NoRow;
    }
    ans := Answers(found, catalog, w.filed, w.signs, w.served, w.record);
  }

  lemma FoundIsUnique(w: World, f: Found, g: Found)
    requires IsFound(w, f) && IsFound(w, g)
    ensures f == g
  {
    if f.Names? && g.Names? {
      var c :| PutsForward(w.notes.text, w.scanner, w.today, c) && f == Names(c.version, w.reason(c.cves));
      var c' :| PutsForward(w.notes.text, w.scanner, w.today, c') && g == Names(c'.version, w.reason(c'.cves));
      PutsForwardUnique(w.notes.text, w.scanner, w.today, c, c');
    }
  }

  method ReadNotes(w: World) returns (f: Found)
    requires WellFormed(w)
    ensures IsFound(w, f)
  {
    if w.notes.Unavailable? { return NoPage; }
    if w.notes.NotText? { return BadPage; }
    var r := Discover(w.notes.text, w.scanner, w.today);
    if r.Refused? { return BadPage; }
    return Names(r.value.version, w.reason(r.value.cves));
  }
}
