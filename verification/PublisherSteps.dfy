/** Many monitor processes interleaved over one pair of files: the lock, each
    read and each atomic write is a step, any process may die between steps,
    and the served file may be lost at any time. */
module PublisherSteps {
  import opened Basics
  import opened Versions
  import opened AdvisoryMonitor

  type Pid = nat

  datatype Pc =
    | Started
    | HoldsLock
    | KnowsLastGood(lastGood: Option<Version>)
    | KnowsBoth(lastGood: Option<Version>, sv: ServedState)
    | Chosen(v: Version, reason: string, bootstrap: bool)
    | Cleared(v: Version, reason: string, bootstrap: bool)
    | Signed(v: Version, bootstrap: bool, env: Envelope)
    | InPlace(v: Version, bootstrap: bool, env: Envelope)
    | Exited(exit: Exit, outcome: Outcome)

  datatype Proc = Proc(args: Args, pc: Pc)

  /** One entry for each time an envelope was put in place. */
  datatype Entry = Entry(author: Pid, env: Envelope)

  /** `inherited` is last-good as it was when the history began. */
  datatype State = State(
    disk: Disk, lock: Option<Pid>, procs: map<Pid, Proc>, log: seq<Entry>, inherited: LastGoodFile)

  datatype Label =
    | Launch(p: Pid, args: Args)
    | TakeLock(p: Pid)
    | ReadLastGood(p: Pid)
    | ReadServed(p: Pid)
    | ReadNotes(p: Pid, found: Found, filed: bool)
    | ReadCatalog(p: Pid, catalog: CatalogSays, filed: bool)
    | Sign(p: Pid, signs: bool)
    | Replace(p: Pid, how: Write)
    | WriteRecord(p: Pid, how: Write)
    | Abort(p: Pid)
    | Crash(p: Pid)
    | Release(p: Pid)
    | LoseServed

  /** Between taking the lock and exiting. */
  predicate Critical(pc: Pc) { !pc.Started? && !pc.Exited? }

  // ---- one step ----------------------------------------------------------

  function OnFound(cfg: Config, a: Args, pc: Pc, found: Found, filed: bool): Pc
    requires pc.KnowsBoth?
  {
    match found
    case NoPage => Exited(ExitFetch, FetchFailed)
    case BadPage => Exited(RefusalExit(filed), RefusalOutcome(filed))
    case Names(v, reason) =>
      var decision := Decide(cfg, a, pc.lastGood, pc.sv, v);
      if decision.Stop? then Exited(StopExit(decision, filed), StopOutcome(decision, filed))
      else Chosen(v, reason, decision.bootstrap)
  }

  function OnCatalog(a: Args, pc: Pc, says: CatalogSays, filed: bool): Pc
    requires pc.Chosen?
  {
    if says.NoCatalog? then Exited(ExitFetch, FetchFailed)
    else if says.NoRow? then Exited(RefusalExit(filed), RefusalOutcome(filed))
    else if !filed then Exited(ExitConfig, InternalError)
    else if a.dryRun then Exited(ExitOk, if pc.bootstrap && a.publishRoot then WouldBootstrap else WouldRaise)
    else Cleared(pc.v, pc.reason, pc.bootstrap)
  }

  function OnSign(cfg: Config, a: Args, pc: Pc, signs: bool): Pc
    requires pc.Cleared?
  {
    if !signs then Exited(ExitSign, SignRefused)
    else if a.signingKey != Some(cfg.key) then Exited(ExitConfig, ConfigError)
    else
      var e := EnvelopeFor(pc.v, pc.reason, a.now, cfg.key);
      if Verifies(cfg, e, a.now) then Signed(pc.v, pc.bootstrap, e) else Exited(ExitSign, SignRefused)
  }

  function OnReplace(pc: Pc, how: Write): Pc
    requires pc.Signed?
  {
    if how.Succeeds? then InPlace(pc.v, pc.bootstrap, pc.env)
    else if how.FailsBefore? || how.FailsAfter? then Exited(ExitPublish, PublishFailed)
    else Exited(Died, Killed)
  }

  function OnRecord(pc: Pc, how: Write): Pc
    requires pc.InPlace?
  {
    if how.Succeeds? then Exited(ExitOk, if pc.bootstrap then PublishedBootstrap else Published)
    else if how.FailsBefore? || how.FailsAfter? then Exited(ExitConfig, InternalError)
    else Exited(Died, Killed)
  }

  /** A step process p takes on its own, the lock aside; None when not enabled. */
  function Local(cfg: Config, d: Disk, proc: Proc, l: Label): Option<(Disk, Pc)> {
    var pc := proc.pc;
    match l
    case ReadLastGood(_) =>
      if !pc.HoldsLock? then None
      else if d.lastGood.NoRecord? || LastGoodFloor(d).Some? then Some((d, KnowsLastGood(LastGoodFloor(d))))
      else Some((d, Exited(ExitConfig, ConfigError)))
    case ReadServed(_) =>
      if pc.KnowsLastGood? then Some((d, KnowsBoth(pc.lastGood, LookAtServed(cfg, proc.args, d.served)))) else None
    case ReadNotes(_, found, filed) =>
      if pc.KnowsBoth? && (found.Names? ==> Readable(found.version)) then
        Some((d, OnFound(cfg, proc.args, pc, found, filed)))
      else None
    case ReadCatalog(_, says, filed) =>
      if pc.Chosen? then Some((d, OnCatalog(proc.args, pc, says, filed))) else None
    case Sign(_, signs) =>
      if pc.Cleared? then Some((d, OnSign(cfg, proc.args, pc, signs))) else None
    case Replace(_, how) =>
      if pc.Signed? then
        Some((if Takes(how) then d.(served := Doc(pc.env)) else d, OnReplace(pc, how)))
      else None
    case WriteRecord(_, how) =>
      if pc.InPlace? then
        Some((if Takes(how) then d.(lastGood := RecordFor(pc.v, pc.env)) else d, OnRecord(pc, how)))
      else None
    case Abort(_) => if Critical(pc) then Some((d, Exited(ExitConfig, InternalError))) else None
    case Crash(_) => if !pc.Exited? then Some((d, Exited(Died, Killed))) else None
    case _ => None
  }

  predicate Puts(proc: Proc, l: Label) { l.Replace? && proc.pc.Signed? && Takes(l.how) }

  /** The step a label names; a label that is not enabled changes nothing. A
      dead process's lock is freed by its Release, as the kernel does. */
  function Next(cfg: Config, s: State, l: Label): State {
    if l.LoseServed? then s.(disk := s.disk.(served := NoFile))
    else if l.Launch? then
      if l.p !in s.procs && Accepted(l.args) then s.(procs := s.procs[l.p := Proc(l.args, Started)]) else s
    else if l.p !in s.procs then s
    else
      var proc := s.procs[l.p];
      if l.TakeLock? then
        if !proc.pc.Started? then s
        else if s.lock.None? then s.(lock := Some(l.p), procs := s.procs[l.p := proc.(pc := HoldsLock)])
        else s.(procs := s.procs[l.p := proc.(pc := Exited(ExitLocked, LockHeld))])
      else if l.Release? then
        if proc.pc.Exited? && s.lock == Some(l.p) then s.(lock := None) else s
      else
        var step := Local(cfg, s.disk, proc, l);
        if step.None? then s
        else s.(disk := step.value.0, procs := s.procs[l.p := proc.(pc := step.value.1)],
                log := if Puts(proc, l) then s.log + [Entry(l.p, proc.pc.env)] else s.log)
  }

  function Exec(cfg: Config, s: State, ls: seq<Label>): State
    decreases |ls|
  {
    if ls == [] then s else Exec(cfg, Next(cfg, s, ls[0]), ls[1..])
  }

  // ---- the invariant -----------------------------------------------------

  ghost predicate Sound(cfg: Config, d: Disk, a: Args, v: Version) {
    && Readable(v) && AtMost(cfg.baseline, v) && v.major <= cfg.baseline.major + a.maxMajorAhead
    && AboveOrNone(LastGoodFloor(d), v)
  }

  ghost predicate SoundEnvelope(cfg: Config, a: Args, v: Version, e: Envelope) {
    Verifies(cfg, e, a.now) && e.floor == Join4(v) && !a.dryRun
  }

  ghost predicate ProcOk(cfg: Config, d: Disk, proc: Proc) {
    var a := proc.args;
    && Accepted(a)
    && match proc.pc
       case KnowsLastGood(lg) => lg == LastGoodFloor(d)
       case KnowsBoth(lg, sv) =>
         && lg == LastGoodFloor(d)
         && (sv.Valid? ==> AboveOrNone(lg, sv.floor) && (d.served.NoFile? || ServedFloor(cfg, d) == Some(sv.floor)))
         && (!a.dryRun ==> !sv.Unverified?)
       case Chosen(v, _, _) => Sound(cfg, d, a, v)
       case Cleared(v, _, _) => Sound(cfg, d, a, v) && !a.dryRun
       case Signed(v, _, e) => Sound(cfg, d, a, v) && SoundEnvelope(cfg, a, v, e)
       case InPlace(v, _, e) =>
         Sound(cfg, d, a, v) && SoundEnvelope(cfg, a, v, e) && (d.served.NoFile? || d.served == Doc(e))
       case _ => true
  }

  /** Exits and stages that a process reaches only if it put nothing in place. */
  predicate Silent(pc: Pc) {
    if pc.Exited? then
      pc.exit in {ExitFetch, ExitRefused, ExitLocked, ExitSign} ||
      (pc.exit == ExitOk && pc.outcome !in {Published, PublishedBootstrap})
    else !pc.InPlace?
  }

  /** What was put in place is authentic, no lower than the compiled floor, and
      within the bound of the run that put it there. */
  ghost predicate EntryOk(cfg: Config, procs: map<Pid, Proc>, e: Entry) {
    && Authentic(cfg, e.env) && AtMost(cfg.baseline, Parse4(e.env.floor).value)
    && e.author in procs && !Silent(procs[e.author].pc)
    && Parse4(e.env.floor).value.major <= cfg.baseline.major + procs[e.author].args.maxMajorAhead
  }

  ghost predicate EntriesOk(cfg: Config, s: State) {
    forall i :: 0 <= i < |s.log| ==> EntryOk(cfg, s.procs, s.log[i])
  }

  ghost predicate InPlaceLogged(s: State) {
    forall p :: p in s.procs && s.procs[p].pc.InPlace? ==> Entry(p, s.procs[p].pc.env) in s.log
  }

  /** Last-good is the inherited one or names a floor whose envelope was put in
      place before. */
  ghost predicate RecordLogged(s: State) {
    s.disk.lastGood != s.inherited ==>
      && s.disk.lastGood.Record?
      && s.disk.lastGood.floor == s.disk.lastGood.envelope.floor
      && exists p :: Entry(p, s.disk.lastGood.envelope) in s.log
  }

  ghost predicate LogOk(cfg: Config, s: State) {
    EntriesOk(cfg, s) && InPlaceLogged(s) && RecordLogged(s)
  }

  ghost predicate Inv(cfg: Config, s: State) {
    && Consistent(cfg, s.disk)
    && (forall p :: p in s.procs ==>
          ProcOk(cfg, s.disk, s.procs[p]) && (Critical(s.procs[p].pc) ==> s.lock == Some(p)))
    && LogOk(cfg, s)
  }

  /** Nothing running, on any consistent disk; a disk without a record is one,
      whatever is served on it, and so is any that earlier runs have left. */
  ghost predicate Init(cfg: Config, s: State) {
    s.lock.None? && s.procs == map[] && s.log == [] && s.inherited == s.disk.lastGood && Consistent(cfg, s.disk)
  }

  lemma InitHolds(cfg: Config, s: State)
    requires Init(cfg, s)
    ensures Inv(cfg, s)
  {}

  /** At most one process is between the lock and its exit. */
  lemma MutualExclusion(cfg: Config, s: State, p: Pid, q: Pid)
    requires Inv(cfg, s) && p in s.procs && q in s.procs
    requires Critical(s.procs[p].pc) && Critical(s.procs[q].pc)
    ensures p == q
  {}

  /** A process outside the critical stages holds no view of the disk. */
  lemma OutsideIsStable(cfg: Config, d: Disk, d': Disk, proc: Proc)
    requires ProcOk(cfg, d, proc) && !Critical(proc.pc)
    ensures ProcOk(cfg, d', proc)
  {}

  lemma DecidedIsSound(cfg: Config, d: Disk, proc: Proc, found: Found, filed: bool)
    requires proc.pc.KnowsBoth? && ProcOk(cfg, d, proc)
    requires found.Names? ==> Readable(found.version)
    ensures ProcOk(cfg, d, proc.(pc := OnFound(cfg, proc.args, proc.pc, found, filed)))
  {
    if found.Names? {
      var decision := Decide(cfg, proc.args, proc.pc.lastGood, proc.pc.sv, found.version);
      if decision.Proceed? {
        ProceedIsBounded(cfg, proc.args, proc.pc.lastGood, proc.pc.sv, found.version);
      }
    }
  }

  lemma ReadServedIsSound(cfg: Config, d: Disk, proc: Proc)
    requires Consistent(cfg, d) && proc.pc.KnowsLastGood? && ProcOk(cfg, d, proc)
    ensures ProcOk(cfg, d, proc.(pc := KnowsBoth(proc.pc.lastGood, LookAtServed(cfg, proc.args, d.served))))
  {}

  lemma ReplaceIsSound(cfg: Config, d: Disk, proc: Proc, how: Write)
    requires Consistent(cfg, d) && proc.pc.Signed? && ProcOk(cfg, d, proc)
    ensures var d' := if Takes(how) then d.(served := Doc(proc.pc.env)) else d;
            Consistent(cfg, d') && ProcOk(cfg, d', proc.(pc := OnReplace(proc.pc, how)))
  {
    assert Parse4(proc.pc.env.floor) == Some(proc.pc.v);
  }

  lemma RecordIsSound(cfg: Config, d: Disk, proc: Proc, how: Write)
    requires Consistent(cfg, d) && proc.pc.InPlace? && ProcOk(cfg, d, proc)
    ensures var d' := if Takes(how) then d.(lastGood := RecordFor(proc.pc.v, proc.pc.env)) else d;
            && Consistent(cfg, d') && ProcOk(cfg, d', proc.(pc := OnRecord(proc.pc, how)))
            && Rises(LastGoodFloor(d), LastGoodFloor(d'))
  {
    assert Parse4(proc.pc.env.floor) == Some(proc.pc.v);
  }

  /** The acting process's own part of the invariant. */
  lemma LocalIsSound(cfg: Config, d: Disk, proc: Proc, l: Label)
    requires Consistent(cfg, d) && ProcOk(cfg, d, proc) && Local(cfg, d, proc, l).Some?
    ensures var r := Local(cfg, d, proc, l).value;
            && Consistent(cfg, r.0) && ProcOk(cfg, r.0, proc.(pc := r.1))
            && Rises(LastGoodFloor(d), LastGoodFloor(r.0))
            && (r.0 != d ==> Critical(proc.pc))
            && (Critical(r.1) ==> Critical(proc.pc))
  {
    hide Parse4, Decide, LookAtServed;
    match l
    case ReadServed(_) => ReadServedIsSound(cfg, d, proc);
    case ReadNotes(_, found, filed) => DecidedIsSound(cfg, d, proc, found, filed);
    case Replace(_, how) => ReplaceIsSound(cfg, d, proc, how);
    case WriteRecord(_, how) => RecordIsSound(cfg, d, proc, how);
    case _ =>
  }

  lemma LosingServedIsSound(cfg: Config, d: Disk, proc: Proc)
    requires ProcOk(cfg, d, proc)
    ensures ProcOk(cfg, d.(served := NoFile), proc)
  {}

  /** A process never becomes silent again after putting an envelope in place. */
  lemma SilenceIsKept(cfg: Config, d: Disk, proc: Proc, l: Label)
    requires Local(cfg, d, proc, l).Some?
    ensures var pc' := Local(cfg, d, proc, l).value.1;
            && (!Silent(proc.pc) ==> !Silent(pc'))
            && (Puts(proc, l) ==> !Silent(pc'))
            && (pc'.InPlace? ==> Puts(proc, l) && pc'.env == proc.pc.env)
  {}

  predicate Acts(cfg: Config, s: State, l: Label) {
    !l.LoseServed? && l.p in s.procs && Local(cfg, s.disk, s.procs[l.p], l).Some?
  }

  lemma StepKeepsEntry(cfg: Config, s: State, l: Label, e: Entry)
    requires EntryOk(cfg, s.procs, e)
    ensures EntryOk(cfg, Next(cfg, s, l).procs, e)
  {
    if Acts(cfg, s, l) { SilenceIsKept(cfg, s.disk, s.procs[l.p], l); }
  }

  lemma PutEntryIsOk(cfg: Config, s: State, l: Label)
    requires Inv(cfg, s) && !l.LoseServed? && l.p in s.procs && Puts(s.procs[l.p], l)
    ensures EntryOk(cfg, Next(cfg, s, l).procs, Entry(l.p, s.procs[l.p].pc.env))
  {
    hide Split, Join4, LogOk, Consistent;
    var proc := s.procs[l.p];
    assert ProcOk(cfg, s.disk, proc);
    SilenceIsKept(cfg, s.disk, proc, l);
    assert Parse4(proc.pc.env.floor) == Some(proc.pc.v);
  }

  lemma StepKeepsEntries(cfg: Config, s: State, l: Label)
    requires Inv(cfg, s)
    ensures EntriesOk(cfg, Next(cfg, s, l))
  {
    var s' := Next(cfg, s, l);
    LogGrows(cfg, s, l);
    forall i | 0 <= i < |s'.log| ensures EntryOk(cfg, s'.procs, s'.log[i]) {
      if i < |s.log| {
        assert s'.log[i] == s.log[i];
        StepKeepsEntry(cfg, s, l, s.log[i]);
      } else {
        PutEntryIsOk(cfg, s, l);
      }
    }
  }

  /** The log grows by the envelope a step puts in place, and only then. */
  lemma LogGrows(cfg: Config, s: State, l: Label)
    ensures var s' := Next(cfg, s, l);
            if !l.LoseServed? && l.p in s.procs && Puts(s.procs[l.p], l)
            then s'.log == s.log + [Entry(l.p, s.procs[l.p].pc.env)]
            else s'.log == s.log
  {}

  lemma StepKeepsInPlaceLogged(cfg: Config, s: State, l: Label)
    requires Inv(cfg, s)
    ensures InPlaceLogged(Next(cfg, s, l))
  {
    if Acts(cfg, s, l) {
      SilenceIsKept(cfg, s.disk, s.procs[l.p], l);
      var s' := Next(cfg, s, l);
      if Puts(s.procs[l.p], l) { assert s'.log[|s.log|] == Entry(l.p, s.procs[l.p].pc.env); }
    }
  }

  lemma StepKeepsRecordLogged(cfg: Config, s: State, l: Label)
    requires Inv(cfg, s)
    ensures RecordLogged(Next(cfg, s, l))
  {
    hide Parse4, Decide, LookAtServed, Consistent, EntriesOk, Verifies;
    var s' := Next(cfg, s, l);
    if s'.disk.lastGood == s.disk.lastGood {
      if s.disk.lastGood != s.inherited {
        var p :| Entry(p, s.disk.lastGood.envelope) in s.log;
        assert Entry(p, s.disk.lastGood.envelope) in s'.log;
      }
    } else {
      var proc := s.procs[l.p];
      assert ProcOk(cfg, s.disk, proc);
      assert Entry(l.p, proc.pc.env) in s'.log;
    }
  }

  /** A step leaves every other process's part of the invariant standing. */
  lemma OthersStaySound(cfg: Config, s: State, l: Label, p: Pid)
    requires Inv(cfg, s) && p in s.procs && !(Acts(cfg, s, l) && p == l.p)
    ensures ProcOk(cfg, Next(cfg, s, l).disk, Next(cfg, s, l).procs[p])
    ensures Critical(Next(cfg, s, l).procs[p].pc) ==> Next(cfg, s, l).lock == Some(p)
  {
    assert ProcOk(cfg, s.disk, s.procs[p]);
    if l.LoseServed? {
      LosingServedIsSound(cfg, s.disk, s.procs[p]);
    } else if Acts(cfg, s, l) {
      LocalIsSound(cfg, s.disk, s.procs[l.p], l);
      if Next(cfg, s, l).disk != s.disk {
        OutsideIsStable(cfg, s.disk, Next(cfg, s, l).disk, s.procs[p]);
      }
    }
  }

  /** Losing the served file leaves the rest of the disk consistent. */
  lemma LossIsConsistent(cfg: Config, d: Disk)
    requires Consistent(cfg, d)
    ensures Consistent(cfg, d.(served := NoFile))
    ensures Rises(LastGoodFloor(d), LastGoodFloor(d.(served := NoFile))) && Rises(LastGoodFloor(d), LastGoodFloor(d))
  {
    hide Parse4;
  }

  lemma StepKeepsDisk(cfg: Config, s: State, l: Label)
    requires Inv(cfg, s)
    ensures Consistent(cfg, Next(cfg, s, l).disk)
    ensures Rises(LastGoodFloor(s.disk), LastGoodFloor(Next(cfg, s, l).disk))
  {
    hide Consistent, Rises, LastGoodFloor, Local, ProcOk, LogOk;
    LossIsConsistent(cfg, s.disk);
    if Acts(cfg, s, l) { LocalIsSound(cfg, s.disk, s.procs[l.p], l); }
  }

  lemma ActorStaysSound(cfg: Config, s: State, l: Label)
    requires Inv(cfg, s) && Acts(cfg, s, l)
    ensures ProcOk(cfg, Next(cfg, s, l).disk, Next(cfg, s, l).procs[l.p])
    ensures Critical(Next(cfg, s, l).procs[l.p].pc) ==> Next(cfg, s, l).lock == Some(l.p)
  {
    hide Consistent, Rises, Local, LogOk, ProcOk;
    ActsIsLocal(cfg, s, l);
    LocalIsSound(cfg, s.disk, s.procs[l.p], l);
  }

  lemma ActsIsLocal(cfg: Config, s: State, l: Label)
    requires Acts(cfg, s, l)
    ensures !l.Launch? && !l.TakeLock? && !l.Release?
  {}

  lemma NewProcIsSound(cfg: Config, s: State, l: Label, p: Pid)
    requires p in Next(cfg, s, l).procs && p !in s.procs
    ensures ProcOk(cfg, Next(cfg, s, l).disk, Next(cfg, s, l).procs[p]) && !Critical(Next(cfg, s, l).procs[p].pc)
  {
    hide Local;
  }

  /** Every step of every process keeps the invariant, and last-good rises. */
  lemma StepKeepsInv(cfg: Config, s: State, l: Label)
    requires Inv(cfg, s)
    ensures Inv(cfg, Next(cfg, s, l))
    ensures Rises(LastGoodFloor(s.disk), LastGoodFloor(Next(cfg, s, l).disk))
  {
    StepKeepsDisk(cfg, s, l);
    StepKeepsEntries(cfg, s, l);
    StepKeepsInPlaceLogged(cfg, s, l);
    StepKeepsRecordLogged(cfg, s, l);
    hide Consistent, Rises, LastGoodFloor, Next, Acts, ProcOk, EntriesOk, InPlaceLogged, RecordLogged;
    var s' := Next(cfg, s, l);
    forall p | p in s'.procs
      ensures ProcOk(cfg, s'.disk, s'.procs[p]) && (Critical(s'.procs[p].pc) ==> s'.lock == Some(p))
    {
      if p !in s.procs {
        NewProcIsSound(cfg, s, l, p);
      } else if Acts(cfg, s, l) && p == l.p {
        ActorStaysSound(cfg, s, l);
      } else {
        OthersStaySound(cfg, s, l, p);
      }
    }
  }

  /** Every reachable state is consistent, and last-good can always be read and
      only rises, losses of the served file included. */
  lemma {:induction false} RunsKeepInv(cfg: Config, s: State, ls: seq<Label>)
    requires Inv(cfg, s)
    ensures Inv(cfg, Exec(cfg, s, ls))
    ensures Rises(LastGoodFloor(s.disk), LastGoodFloor(Exec(cfg, s, ls).disk))
    decreases |ls|
  {
    if ls != [] {
      StepKeepsInv(cfg, s, ls[0]);
      RunsKeepInv(cfg, Next(cfg, s, ls[0]), ls[1..]);
    }
  }

  /** The floors put in place from entry n on are at or above `low`. */
  ghost predicate AllAbove(low: Option<Version>, log: seq<Entry>, n: nat) {
    forall i :: n <= i < |log| ==>
      Parse4(log[i].env.floor).Some? && AboveOrNone(low, Parse4(log[i].env.floor).value)
  }

  lemma PutIsAboveLastGood(cfg: Config, s: State, l: Label)
    requires Inv(cfg, s)
    ensures AllAbove(LastGoodFloor(s.disk), Next(cfg, s, l).log, |s.log|)
  {
    LogGrows(cfg, s, l);
    if !l.LoseServed? && l.p in s.procs && Puts(s.procs[l.p], l) {
      var proc := s.procs[l.p];
      assert ProcOk(cfg, s.disk, proc);
      assert Parse4(proc.pc.env.floor) == Some(proc.pc.v);
    }
  }

  lemma AllAboveWeaken(low: Option<Version>, high: Option<Version>, log: seq<Entry>, n: nat)
    requires Rises(low, high) && AllAbove(high, log, n)
    ensures AllAbove(low, log, n)
  {
    forall i | n <= i < |log| ensures AboveOrNone(low, Parse4(log[i].env.floor).value) {
      if low.Some? { OrderIsTotal(low.value, high.value, Parse4(log[i].env.floor).value); }
    }
  }

  /** Every later publication of every history is at or above last-good as it is
      now, even when the served file is lost in between. */
  lemma {:induction false} LaterPublicationsAreAbove(cfg: Config, s: State, ls: seq<Label>)
    requires Inv(cfg, s)
    ensures s.log <= Exec(cfg, s, ls).log
    ensures AllAbove(LastGoodFloor(s.disk), Exec(cfg, s, ls).log, |s.log|)
    decreases |ls|
  {
    if ls != [] {
      var s1 := Next(cfg, s, ls[0]);
      var log := Exec(cfg, s1, ls[1..]).log;
      StepKeepsInv(cfg, s, ls[0]);
      LogGrows(cfg, s, ls[0]);
      PutIsAboveLastGood(cfg, s, ls[0]);
      LaterPublicationsAreAbove(cfg, s1, ls[1..]);
      AllAboveWeaken(LastGoodFloor(s.disk), LastGoodFloor(s1.disk), log, |s1.log|);
      forall i | |s.log| <= i < |s1.log| ensures log[i] == s1.log[i] {}
    }
  }

  /** A process that exits by fetch, refusal, lock or signing, or with an
      "unchanged" or dry-run answer, never put anything in place. */
  lemma SilentExitsWroteNothing(cfg: Config, s: State, p: Pid, i: nat)
    requires Inv(cfg, s) && p in s.procs && Silent(s.procs[p].pc) && i < |s.log|
    ensures s.log[i].author != p
  {}

  /** A live process that answers "unchanged" saw the candidate served, and it
      still is unless the file was lost meanwhile. */
  lemma UnchangedMeansServed(cfg: Config, s: State, p: Pid, found: Found, filed: bool)
    requires Inv(cfg, s) && p in s.procs && s.procs[p].pc.KnowsBoth? && !s.procs[p].args.dryRun
    requires found.Names? && Readable(found.version)
    requires Next(cfg, s, ReadNotes(p, found, filed)).procs[p].pc == Exited(ExitOk, Unchanged)
    ensures s.procs[p].pc.sv == Valid(found.version)
    ensures s.disk.served.NoFile? || ServedFloor(cfg, s.disk) == Some(found.version)
  {
    hide Parse4;
    assert ProcOk(cfg, s.disk, s.procs[p]);
  }

  // ---- the served floor over interleavings -------------------------------

  /** A live reader's clock is not too far behind the date it reads. */
  ghost predicate TimelyStep(cfg: Config, s: State, l: Label) {
    l.ReadServed? && l.p in s.procs && !s.procs[l.p].args.dryRun ==>
      ClockAgrees(cfg, s.disk, s.procs[l.p].args.now)
  }

  ghost predicate TimelyRun(cfg: Config, s: State, ls: seq<Label>)
    decreases |ls|
  {
    ls != [] ==> TimelyStep(cfg, s, ls[0]) && TimelyRun(cfg, Next(cfg, s, ls[0]), ls[1..])
  }

  /** What a live process intends is not below what is served. */
  ghost predicate Ahead(cfg: Config, d: Disk, proc: Proc) {
    proc.args.dryRun ||
    match proc.pc
    case KnowsBoth(_, sv) => ServedFloor(cfg, d).Some? ==> sv == Valid(ServedFloor(cfg, d).value)
    case Chosen(v, _, _) => AboveOrNone(ServedFloor(cfg, d), v)
    case Cleared(v, _, _) => AboveOrNone(ServedFloor(cfg, d), v)
    case Signed(v, _, _) => AboveOrNone(ServedFloor(cfg, d), v)
    case _ => true
  }

  ghost predicate AllAhead(cfg: Config, s: State) {
    Inv(cfg, s) && forall p :: p in s.procs ==> Ahead(cfg, s.disk, s.procs[p])
  }

  lemma DecidedIsAhead(cfg: Config, d: Disk, proc: Proc, found: Found, filed: bool)
    requires proc.pc.KnowsBoth? && Accepted(proc.args) && Ahead(cfg, d, proc)
    ensures Ahead(cfg, d, proc.(pc := OnFound(cfg, proc.args, proc.pc, found, filed)))
  {
    if found.Names? && Decide(cfg, proc.args, proc.pc.lastGood, proc.pc.sv, found.version).Proceed? {
      ProceedIsBounded(cfg, proc.args, proc.pc.lastGood, proc.pc.sv, found.version);
    }
  }

  lemma ReadIsAhead(cfg: Config, d: Disk, proc: Proc)
    requires proc.pc.KnowsLastGood? && Accepted(proc.args)
    requires !proc.args.dryRun ==> ClockAgrees(cfg, d, proc.args.now)
    ensures Ahead(cfg, d, proc.(pc := KnowsBoth(proc.pc.lastGood, LookAtServed(cfg, proc.args, d.served))))
  {}

  lemma PutIsAhead(cfg: Config, d: Disk, proc: Proc)
    requires proc.pc.Signed? && ProcOk(cfg, d, proc) && Ahead(cfg, d, proc)
    ensures NotLowered(cfg, d, d.(served := Doc(proc.pc.env)))
  {
    assert Parse4(proc.pc.env.floor) == Some(proc.pc.v);
  }

  lemma LocalIsAhead(cfg: Config, s: State, l: Label)
    requires Inv(cfg, s) && Acts(cfg, s, l) && TimelyStep(cfg, s, l)
    requires Ahead(cfg, s.disk, s.procs[l.p])
    ensures var r := Local(cfg, s.disk, s.procs[l.p], l).value;
            Ahead(cfg, r.0, s.procs[l.p].(pc := r.1)) && NotLowered(cfg, s.disk, r.0)
  {
    hide Parse4, Decide, LookAtServed, LastGoodFloor, Verifies;
    var proc := s.procs[l.p];
    assert ProcOk(cfg, s.disk, proc);
    match l
    case ReadServed(_) => ReadIsAhead(cfg, s.disk, proc);
    case ReadNotes(_, found, filed) => DecidedIsAhead(cfg, s.disk, proc, found, filed);
    case Replace(_, how) => PutIsAhead(cfg, s.disk, proc);
    case _ =>
  }

  lemma StepKeepsAhead(cfg: Config, s: State, l: Label)
    requires AllAhead(cfg, s) && TimelyStep(cfg, s, l)
    ensures AllAhead(cfg, Next(cfg, s, l))
    ensures !l.LoseServed? ==> NotLowered(cfg, s.disk, Next(cfg, s, l).disk)
  {
    hide Parse4, Decide, LookAtServed;
    var s' := Next(cfg, s, l);
    StepKeepsInv(cfg, s, l);
    if Acts(cfg, s, l) {
      LocalIsAhead(cfg, s, l);
      LocalIsSound(cfg, s.disk, s.procs[l.p], l);
    }
    forall p | p in s'.procs ensures Ahead(cfg, s'.disk, s'.procs[p]) {
      if p in s.procs && (!Acts(cfg, s, l) || p != l.p) {
        OthersStayAhead(cfg, s, l, p);
      }
    }
  }

  lemma OthersStayAhead(cfg: Config, s: State, l: Label, p: Pid)
    requires AllAhead(cfg, s) && p in s.procs && (!Acts(cfg, s, l) || p != l.p)
    ensures Ahead(cfg, Next(cfg, s, l).disk, Next(cfg, s, l).procs[p])
  {
    hide Parse4, Decide, LookAtServed, Consistent, LogOk;
    assert Ahead(cfg, s.disk, s.procs[p]);
    if Acts(cfg, s, l) { LocalIsSound(cfg, s.disk, s.procs[l.p], l); }
  }

  /** Over every interleaving of live runs, dry runs, lock losers, aborts and
      crashes at any point, with no loss of the served file and no reader's
      clock a week behind: an authentic served floor never goes down. */
  lemma {:induction false} ServedNeverLowered(cfg: Config, s: State, ls: seq<Label>)
    requires AllAhead(cfg, s) && TimelyRun(cfg, s, ls) && LoseServed !in ls
    ensures NotLowered(cfg, s.disk, Exec(cfg, s, ls).disk)
    decreases |ls|
  {
    if ls != [] {
      var s1 := Next(cfg, s, ls[0]);
      StepKeepsAhead(cfg, s, ls[0]);
      ServedNeverLowered(cfg, s1, ls[1..]);
      NotLoweredTransitive(cfg, s.disk, s1.disk, Exec(cfg, s1, ls[1..]).disk);
    }
  }

  lemma NotLoweredTransitive(cfg: Config, a: Disk, b: Disk, c: Disk)
    requires NotLowered(cfg, a, b) && NotLowered(cfg, b, c)
    ensures NotLowered(cfg, a, c)
  {
    if ServedFloor(cfg, a).Some? {
      OrderIsTotal(ServedFloor(cfg, a).value, ServedFloor(cfg, b).value, ServedFloor(cfg, c).value);
    }
  }

  /** Losses may come first: from any start, any timely history and then any
      timely stretch without a loss. */
  lemma {:induction false} ReachableIsAhead(cfg: Config, s: State, ls: seq<Label>)
    requires AllAhead(cfg, s) && TimelyRun(cfg, s, ls)
    ensures AllAhead(cfg, Exec(cfg, s, ls))
    decreases |ls|
  {
    if ls != [] {
      StepKeepsAhead(cfg, s, ls[0]);
      ReachableIsAhead(cfg, Next(cfg, s, ls[0]), ls[1..]);
    }
  }

  lemma ServedNeverLoweredFromStart(cfg: Config, s: State, before: seq<Label>, ls: seq<Label>)
    requires Init(cfg, s) && TimelyRun(cfg, s, before)
    requires TimelyRun(cfg, Exec(cfg, s, before), ls) && LoseServed !in ls
    ensures NotLowered(cfg, Exec(cfg, s, before).disk, Exec(cfg, Exec(cfg, s, before), ls).disk)
  {
    InitHolds(cfg, s);
    ReachableIsAhead(cfg, s, before);
    ServedNeverLowered(cfg, Exec(cfg, s, before), ls);
  }

  ghost predicate DatedWithin(f: ServedFile, lo: nat) {
    f.Doc? ==> f.env.publishedAt <= lo + MAX_FUTURE_SECONDS
  }

  ghost predicate ProcWithin(proc: Proc, lo: nat) {
    && lo <= proc.args.now <= lo + MAX_FUTURE_SECONDS && proc.args.now <= U64_MAX
    && (proc.pc.Signed? ==> proc.pc.env.publishedAt <= lo + MAX_FUTURE_SECONDS)
  }

  /** Every clock in play, and every date on or on its way to the served file,
      lies within the week that starts at `lo`. */
  ghost predicate WithinWeek(s: State, lo: nat) {
    DatedWithin(s.disk.served, lo) && forall p :: p in s.procs ==> ProcWithin(s.procs[p], lo)
  }

  ghost predicate LaunchesWithinWeek(ls: seq<Label>, lo: nat) {
    forall i :: 0 <= i < |ls| && ls[i].Launch? ==>
      lo <= ls[i].args.now <= lo + MAX_FUTURE_SECONDS && ls[i].args.now <= U64_MAX
  }

  lemma LocalStaysWithinWeek(cfg: Config, d: Disk, proc: Proc, l: Label, lo: nat)
    requires ProcWithin(proc, lo) && DatedWithin(d.served, lo) && Local(cfg, d, proc, l).Some?
    ensures var r := Local(cfg, d, proc, l).value;
            DatedWithin(r.0.served, lo) && ProcWithin(proc.(pc := r.1), lo)
  {}

  lemma StepStaysWithinWeek(cfg: Config, s: State, l: Label, lo: nat)
    requires WithinWeek(s, lo)
    requires l.Launch? ==> lo <= l.args.now <= lo + MAX_FUTURE_SECONDS && l.args.now <= U64_MAX
    ensures WithinWeek(Next(cfg, s, l), lo)
  {
    if Acts(cfg, s, l) { LocalStaysWithinWeek(cfg, s.disk, s.procs[l.p], l, lo); }
  }

  lemma WithinWeekReadsTimely(cfg: Config, s: State, l: Label, lo: nat)
    requires WithinWeek(s, lo)
    ensures TimelyStep(cfg, s, l)
  {}

  /** Clocks that stay within one week of each other keep every read timely, so
      the served floor then never goes down. */
  lemma {:induction false} WithinWeekIsTimely(cfg: Config, s: State, ls: seq<Label>, lo: nat)
    requires WithinWeek(s, lo) && LaunchesWithinWeek(ls, lo)
    ensures TimelyRun(cfg, s, ls)
    decreases |ls|
  {
    if ls != [] {
      WithinWeekReadsTimely(cfg, s, ls[0], lo);
      StepStaysWithinWeek(cfg, s, ls[0], lo);
      assert LaunchesWithinWeek(ls[1..], lo) by {
        assert forall i :: 0 <= i < |ls| - 1 ==> ls[1..][i] == ls[i + 1];
      }
      WithinWeekIsTimely(cfg, Next(cfg, s, ls[0]), ls[1..], lo);
    }
  }

  // ---- a whole run is one schedule ---------------------------------------

  /** The labels one process goes through when nothing else interferes. */
  function Schedule(p: Pid, ans: Answers): seq<Label> {
    [ReadLastGood(p), ReadServed(p), ReadNotes(p, ans.found, ans.filed), ReadCatalog(p, ans.catalog, ans.filed),
     Sign(p, ans.signs), Replace(p, ans.served), WriteRecord(p, ans.record)]
  }

  lemma ExecOne(cfg: Config, s: State, l: Label, ls: seq<Label>)
    ensures Exec(cfg, s, [l] + ls) == Exec(cfg, Next(cfg, s, l), ls)
  {
    assert ([l] + ls)[1..] == ls;
  }

  /** An exited process takes no further local step. */
  lemma {:induction false} ExitedStays(cfg: Config, s: State, p: Pid, ls: seq<Label>)
    requires p in s.procs && s.procs[p].pc.Exited?
    requires forall i :: 0 <= i < |ls| ==>
               !ls[i].LoseServed? && !ls[i].Launch? && !ls[i].TakeLock? && !ls[i].Release? && ls[i].p == p
    ensures Exec(cfg, s, ls) == s
    decreases |ls|
  {
    if ls != [] {
      assert Next(cfg, s, ls[0]) == s;
      ExitedStays(cfg, s, p, ls[1..]);
    }
  }

  /** The functional run is a schedule of the step system: the same files, the
      same exit. */
  lemma RunIsASchedule(cfg: Config, s: State, p: Pid, ans: Answers)
    requires p in s.procs && s.procs[p].pc == HoldsLock && Accepted(s.procs[p].args) && Faithful(ans)
    ensures var s' := Exec(cfg, s, Schedule(p, ans));
            p in s'.procs && s'.procs[p].pc.Exited? &&
            RunResult(s'.disk, s'.procs[p].pc.exit, s'.procs[p].pc.outcome) ==
              Run(cfg, s.procs[p].args, s.disk, ans)
  {
    hide Parse4, Decide, LookAtServed, Local;
    var ls := Schedule(p, ans);
    var s3 := ReadThree(cfg, s, p, ans);
    if s3.procs[p].pc.Exited? {
      ExitedStays(cfg, s3, p, ls[3..]);
    } else {
      TailIsCarryOut(cfg, s3, p, ans, ls[3..]);
    }
  }

  /** The three reads: the files untouched, and the process stopped or past the
      comparison as the run function says. */
  lemma ReadThree(cfg: Config, s: State, p: Pid, ans: Answers) returns (s3: State)
    requires p in s.procs && s.procs[p].pc == HoldsLock && Accepted(s.procs[p].args) && Faithful(ans)
    ensures Exec(cfg, s, Schedule(p, ans)) == Exec(cfg, s3, Schedule(p, ans)[3..])
    ensures p in s3.procs && s3.disk == s.disk && s3.procs[p].args == s.procs[p].args
    ensures var a, pc := s.procs[p].args, s3.procs[p].pc;
            if pc.Exited? then RunResult(s.disk, pc.exit, pc.outcome) == Run(cfg, a, s.disk, ans)
            else && ans.found.Names? && pc.Chosen? && pc.v == ans.found.version && pc.reason == ans.found.reason
                 && Run(cfg, a, s.disk, ans) == CarryOut(cfg, a, s.disk, ans.found.version, pc.bootstrap, ans)
  {
    hide Parse4, Decide, LookAtServed, CarryOut;
    var ls := Schedule(p, ans);
    var s1 := Next(cfg, s, ls[0]);
    var s2 := Next(cfg, s1, ls[1]);
    s3 := Next(cfg, s2, ls[2]);
    ExecThree(cfg, s, ls);
  }

  lemma ExecThree(cfg: Config, s: State, ls: seq<Label>)
    requires |ls| >= 3
    ensures Exec(cfg, s, ls) == Exec(cfg, Next(cfg, Next(cfg, Next(cfg, s, ls[0]), ls[1]), ls[2]), ls[3..])
  {
    hide Next;
    assert ls[1..][1..] == ls[2..] && ls[2..][1..] == ls[3..];
    assert Exec(cfg, s, ls) == Exec(cfg, Next(cfg, s, ls[0]), ls[1..]);
    var s1 := Next(cfg, s, ls[0]);
    assert Exec(cfg, s1, ls[1..]) == Exec(cfg, Next(cfg, s1, ls[1]), ls[2..]);
    var s2 := Next(cfg, s1, ls[1]);
    assert Exec(cfg, s2, ls[2..]) == Exec(cfg, Next(cfg, s2, ls[2]), ls[3..]);
  }

  lemma TailIsCarryOut(cfg: Config, s: State, p: Pid, ans: Answers, ls: seq<Label>)
    requires p in s.procs && Accepted(s.procs[p].args) && ans.found.Names?
    requires s.procs[p].pc.Chosen? && s.procs[p].pc.v == ans.found.version && s.procs[p].pc.reason == ans.found.reason
    requires ls == [ReadCatalog(p, ans.catalog, ans.filed), Sign(p, ans.signs),
                    Replace(p, ans.served), WriteRecord(p, ans.record)]
    ensures var s' := Exec(cfg, s, ls);
            p in s'.procs && s'.procs[p].pc.Exited? &&
            RunResult(s'.disk, s'.procs[p].pc.exit, s'.procs[p].pc.outcome) ==
              CarryOut(cfg, s.procs[p].args, s.disk, ans.found.version, s.procs[p].pc.bootstrap, ans)
  {
    var s1 := Next(cfg, s, ls[0]);
    assert ls == [ls[0]] + ls[1..];
    ExecOne(cfg, s, ls[0], ls[1..]);
    if s1.procs[p].pc.Exited? {
      ExitedStays(cfg, s1, p, ls[1..]);
    } else {
      var s2 := Next(cfg, s1, ls[1]);
      assert ls[1..] == [ls[1]] + ls[2..];
      ExecOne(cfg, s1, ls[1], ls[2..]);
      if s2.procs[p].pc.Exited? {
        ExitedStays(cfg, s2, p, ls[2..]);
      } else {
        TailIsPublish(cfg, s2, p, ans.served, ans.record, ls[2..]);
      }
    }
  }

  lemma TailIsPublish(cfg: Config, s: State, p: Pid, serve: Write, record: Write, ls: seq<Label>)
    requires p in s.procs && s.procs[p].pc.Signed?
    requires ls == [Replace(p, serve), WriteRecord(p, record)]
    ensures var s' := Exec(cfg, s, ls); var pc := s.procs[p].pc;
            p in s'.procs && s'.procs[p].pc.Exited? &&
            RunResult(s'.disk, s'.procs[p].pc.exit, s'.procs[p].pc.outcome) ==
              PublishAndRecord(s.disk, pc.v, pc.env, pc.bootstrap, serve, record)
  {
    var s1 := Next(cfg, s, ls[0]);
    assert ls == [ls[0]] + ls[1..];
    ExecOne(cfg, s, ls[0], ls[1..]);
    assert ls[1..] == [ls[1]] + [];
    ExecOne(cfg, s1, ls[1], []);
  }
}
