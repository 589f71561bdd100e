/** What the answers of the comparison cache say, on the fields of the requests alone. */
module ComparisonAnswers {
  import opened Wrappers
  import opened Rounding
  import opened Access
  import opened ComparisonProtocol
  import opened ComparisonSafety
  import opened ComparisonRuns

  // ----- Thresholds -----

  /** A request that combines report-only with a threshold, or names a negative one. */
  ghost predicate IsRefused(query: Query) {
    || (query.reportOnly && (query.maxDistricts.Some? || query.maxDq.Some?))
    || (query.maxDq.Some? && query.maxDq.value < 0.0)
  }

  /** The thresholds are those the request asks for: none for report-only, four districts
      and 0.0001 if it names none, and else exactly the named ones, to a millionth. */
  ghost predicate Answers(query: Query, thresholds: Thresholds) {
    if query.reportOnly then
      thresholds == Thresholds(None, None, ReportOnly)
    else if query.maxDistricts.None? && query.maxDq.None? then
      thresholds == Thresholds(Some(4), Some(0.0001), Default)
    else
      && thresholds.source == Flags && thresholds.maxDistricts == query.maxDistricts
      && (thresholds.maxDq.Some? <==> query.maxDq.Some?)
      && (query.maxDq.Some? ==> -0.0000005 <= thresholds.maxDq.value - query.maxDq.value <= 0.0000005)
  }

  lemma ThresholdsInFields(query: Query)
    ensures ResolveThresholds(query).Err? <==> IsRefused(query)
    ensures ResolveThresholds(query).Ok? ==> Answers(query, ResolveThresholds(query).value)
  {
    if query.maxDq.Some? {
      RoundIsRounded(query.maxDq.value);
    }
  }

  // ----- What a request has read -----

  /** A request reads its map, for thresholds it may ask for, and keeps what it has read. */
  ghost predicate Reads(s: State, t: State, r: nat)
    requires r in t.jobs
  {
    HasBytes(t.jobs[r].pc) ==>
      || (r in s.jobs && HasBytes(s.jobs[r].pc) && s.jobs[r].call == t.jobs[r].call && s.jobs[r].pc.bytes == t.jobs[r].pc.bytes)
      || ReadAt(s, t.jobs[r].call, t.jobs[r].pc.bytes)
  }

  ghost predicate ReadAt(s: State, call: Call, bytes: Bytes) {
    call.mapPath in s.maps && s.maps[call.mapPath] == bytes && !IsRefused(call.query)
  }

  lemma AdvanceReads(check: Checker, s: State, r: nat)
    requires r in s.jobs && (AsksPolicy(s.jobs[r].pc) ==> s.jobs[r].call.caller.Protected?)
    ensures var e, call := Advance(check, s, r), s.jobs[r].call;
            !HasBytes(s.jobs[r].pc) && HasBytes(e.next) ==> ReadAt(s, call, e.next.bytes)
  {
    ThresholdsInFields(s.jobs[r].call.query);
    hide ResolveThresholds, IsRefused, IdOf, CheckStep, PublishStep, Load;
  }

  lemma OwnStepReads(check: Checker, s: State, e: Event)
    requires Enabled(s, e) && (e.Step? || e.Break?)
    ensures e.request in Apply(check, s, e).jobs && Reads(s, Apply(check, s, e), e.request)
  {
    var r := e.request;
    var call, pc := s.jobs[r].call, s.jobs[r].pc;
    if e.Step? {
      PerformedJob(s, r, Advance(check, s, r));
      AdvanceAllowed(check, s, r);
      AdvanceReads(check, s, r);
      hide Advance, Perform, ReadAt, HasBytes;
    } else {
      PerformedJob(s, r, Fault(pc));
      FaultAllowed(s.locks, call, pc);
      FaultReads(pc);
      hide Fault, Perform, ReadAt, HasBytes;
    }
  }

  lemma FaultReads(pc: Pc)
    ensures HasBytes(Fault(pc).next) ==> HasBytes(pc)
  {
  }

  lemma NextReads(check: Checker, s: State, t: State, r: nat)
    requires Inv(check, s) && Next(check, s, t) && r in t.jobs
    ensures Reads(s, t, r)
  {
    NextInv(check, s, t);
    hide Apply, Enabled, Inv, Reads, LeftAlone, PublishedAt;
    var e :| Enabled(s, e) && t == Apply(check, s, e);
    if (e.Step? || e.Break?) && e.request == r {
      OwnStepReads(check, s, e);
    } else {
      OtherEventJob(check, s, e, r);
      LeftAloneReads(s, t, r);
    }
  }

  lemma LeftAloneReads(s: State, t: State, r: nat)
    requires r in t.jobs && LeftAlone(s, t, r)
    ensures Reads(s, t, r)
  {
    hide ReadAt;
  }

  /** Whatever a request works on, it read at some moment from the path of its map, and
      it was not to be refused. */
  lemma {:induction false} MapRead(check: Checker, run: seq<State>, n: nat, r: nat) returns (m: nat)
    requires IsRun(check, run) && n < |run| && r in run[n].jobs && HasBytes(run[n].jobs[r].pc)
    ensures m < n && ReadAt(run[m], run[n].jobs[r].call, run[n].jobs[r].pc.bytes)
  {
    var bytes := run[n].jobs[r].pc.bytes;
    hide Inv, Next, HasBytes, ReadAt;
    assert n > 0;
    RunInv(check, run, n - 1);
    NextReads(check, run[n - 1], run[n], r);
    if ReadAt(run[n - 1], run[n].jobs[r].call, bytes) {
      m := n - 1;
    } else {
      m := MapRead(check, run, n - 1, r);
    }
  }

  // ----- When an envelope was made -----

  /** The envelope is on its way to the disk, or there. */
  ghost predicate Exists(s: State, envelope: Envelope) {
    || (exists r :: r in s.jobs && IsWriting(s.jobs[r].pc, envelope))
    || (exists r :: r in s.files && s.files[r] == Whole(envelope))
  }

  predicate IsWriting(pc: Pc, envelope: Envelope) {
    (pc.Writing? || pc.WritingRest?) && pc.envelope == envelope
  }

  lemma AdvanceMakes(check: Checker, s: State, r: nat, envelope: Envelope)
    requires r in s.jobs && (AsksPolicy(s.jobs[r].pc) ==> s.jobs[r].call.caller.Protected?)
    ensures var e, pc := Advance(check, s, r), s.jobs[r].pc;
            && (IsWriting(e.next, envelope) ==> IsWriting(pc, envelope) || envelope.createdAt == s.clock)
            && (e.write == Some(Whole(envelope)) ==> IsWriting(pc, envelope))
  {
    hide IdOf, Load, InputOf, KeyOf;
  }

  lemma NextMakes(check: Checker, s: State, t: State, envelope: Envelope)
    requires Inv(check, s) && Next(check, s, t) && Exists(t, envelope)
    ensures Exists(s, envelope) || envelope.createdAt == s.clock
  {
    hide Apply, Enabled, Inv, Exists, Quiet;
    var e :| Enabled(s, e) && t == Apply(check, s, e);
    if e.Step? || e.Break? {
      OwnStepMakes(check, s, e, envelope);
    } else {
      OtherEventQuiet(check, s, e);
      QuietMakes(s, t, envelope);
    }
  }

  lemma OwnStepMakes(check: Checker, s: State, e: Event, envelope: Envelope)
    requires Enabled(s, e) && (e.Step? || e.Break?) && Exists(Apply(check, s, e), envelope)
    ensures Exists(s, envelope) || envelope.createdAt == s.clock
  {
    var r := e.request;
    if e.Step? {
      AdvanceMakes(check, s, r, envelope);
      hide Advance, Fault;
      PerformMakes(s, r, Advance(check, s, r), envelope);
    } else {
      FaultMakes(s.jobs[r].pc, envelope);
      hide Advance, Fault;
      PerformMakes(s, r, Fault(s.jobs[r].pc), envelope);
    }
  }

  lemma FaultMakes(pc: Pc, envelope: Envelope)
    ensures (IsWriting(Fault(pc).next, envelope) ==> IsWriting(pc, envelope)) && Fault(pc).write == None
  {
  }

  lemma PerformMakes(s: State, r: nat, e: Effect, envelope: Envelope)
    requires r in s.jobs && Exists(Perform(s, r, e), envelope)
    requires IsWriting(e.next, envelope) ==> IsWriting(s.jobs[r].pc, envelope) || envelope.createdAt == s.clock
    requires e.write == Some(Whole(envelope)) ==> IsWriting(s.jobs[r].pc, envelope)
    ensures Exists(s, envelope) || envelope.createdAt == s.clock
  {
    hide IsWriting;
  }

  lemma QuietMakes(s: State, t: State, envelope: Envelope)
    requires Quiet(s, t) && Exists(t, envelope)
    ensures Exists(s, envelope)
  {
    hide HoldsLock;
  }

  /** An envelope carries the clock of the moment at which it was made. */
  lemma {:induction false} MadeAt(check: Checker, run: seq<State>, n: nat, envelope: Envelope) returns (m: nat)
    requires IsRun(check, run) && n < |run| && Exists(run[n], envelope)
    ensures m < n && envelope.createdAt == run[m].clock
  {
    hide Inv, Next, Exists;
    if n == 0 {
      NothingMade(run[0], envelope);
    } else {
      RunInv(check, run, n - 1);
      NextMakes(check, run[n - 1], run[n], envelope);
      if envelope.createdAt == run[n - 1].clock {
        m := n - 1;
      } else {
        m := MadeAt(check, run, n - 1, envelope);
      }
    }
  }

  lemma NothingMade(s: State, envelope: Envelope)
    requires Initial(s)
    ensures !Exists(s, envelope)
  {
  }

  // ----- The answer -----

  /** The whole answer of a successful request, on the fields of its call: whose report
      it is, with which thresholds, from which map, by which program, and since when. */
  lemma AnswerInFields(check: Checker, run: seq<State>, i: nat, r: nat, bytes: Bytes, envelope: Envelope)
    returns (read: nat, made: nat)
    requires IsRun(check, run) && Succeeded(run, i, r, bytes, envelope)
    ensures var call := run[i].jobs[r].call;
            && !IsRefused(call.query) && Answers(call.query, envelope.thresholds)
            && read < i && call.mapPath in run[read].maps && run[read].maps[call.mapPath] == bytes
            && made < i && envelope.createdAt == run[made].clock
            && envelope.mapHash == Sha256OfMap(bytes)
            && envelope.repository == call.repository && envelope.base == call.query.base && envelope.head == call.query.head
            && envelope.version == call.build.version && envelope.revision == call.build.revision
            && envelope.reportVersion == call.build.reportVersion
            && check(CheckInput(call.repository, call.query.base, call.query.head, envelope.thresholds,
                                call.build.version, call.build.revision, bytes)) == Some(envelope.report)
  {
    var call := run[i].jobs[r].call;
    read := MapRead(check, run, i, r);
    SuccessIsPublished(check, run, i, r, bytes, envelope);
    assert Exists(run[i], envelope);
    made := MadeAt(check, run, i, envelope);
    ThresholdsInFields(call.query);
    RunInv(check, run, i);
    assert JobOk(check, run[i], r);
    hide LinksOk, LocksOk, JobsOk, Next, IsRefused, Answers, ResolveThresholds;
  }

  /** One id is one question: the fields of two successful calls with the same id agree. */
  lemma SameIdSameQuestion(check: Checker, run: seq<State>, i: nat, j: nat, q: nat, r: nat,
                           bytesQ: Bytes, bytesR: Bytes, envelopeQ: Envelope, envelopeR: Envelope)
    requires IsRun(check, run)
    requires Succeeded(run, i, q, bytesQ, envelopeQ) && Succeeded(run, j, r, bytesR, envelopeR)
    requires IdOf(run[i].jobs[q].call, bytesQ) == IdOf(run[j].jobs[r].call, bytesR)
    ensures var c, d := run[i].jobs[q].call, run[j].jobs[r].call;
            && bytesQ == bytesR && c.repository == d.repository
            && c.build.version == d.build.version && c.build.revision == d.build.revision
            && DomainOf(c) == DomainOf(d)
            && c.query.base == d.query.base && c.query.head == d.query.head
            && c.query.reportOnly == d.query.reportOnly && c.query.maxDistricts == d.query.maxDistricts
            && (c.query.maxDq.Some? <==> d.query.maxDq.Some?)
            && (c.query.maxDq.Some? ==> -0.000001 <= c.query.maxDq.value - d.query.maxDq.value <= 0.000001)
  {
    var c, d := run[i].jobs[q].call, run[j].jobs[r].call;
    var _, _ := AnswerInFields(check, run, i, q, bytesQ, envelopeQ);
    var _, _ := AnswerInFields(check, run, j, r, bytesR, envelopeR);
    ThresholdsInFields(c.query);
    ThresholdsInFields(d.query);
    hide IsRun, ResolveThresholds;
  }

  // ----- Who computes -----

  /** A permit belongs to a request of its process that is computing; and only such a
      request, once it has begun, or one that a crash has stopped, has a staging directory. */
  ghost predicate Tidy(s: State) {
    && (forall p :: p in s.locks ==> s.locks[p] in s.jobs && s.jobs[s.locks[p]].call.process == p && HoldsLock(s.jobs[s.locks[p]].pc))
    && (forall r :: r in s.staged ==> r in s.jobs && HasDirectory(s.jobs[r].pc))
  }

  predicate HasDirectory(pc: Pc) {
    (HoldsLock(pc) && !pc.Staging?) || pc == Failed(Crashed)
  }

  /** A step makes the directory only where there may be one, and removes it when there
      may be none any more. */
  ghost predicate KeepsTidy(pc: Pc, e: Effect) {
    && (e.stage.Put? ==> HasDirectory(e.next))
    && (HasDirectory(pc) && !HasDirectory(e.next) ==> e.stage == Removed)
  }

  lemma AdvanceTidies(check: Checker, s: State, r: nat)
    requires r in s.jobs && (AsksPolicy(s.jobs[r].pc) ==> s.jobs[r].call.caller.Protected?)
    ensures KeepsTidy(s.jobs[r].pc, Advance(check, s, r))
  {
    hide IdOf, Load, InputOf, KeyOf;
  }

  lemma FaultTidies(pc: Pc)
    ensures KeepsTidy(pc, Fault(pc))
  {
  }

  lemma PerformTidy(check: Checker, s: State, r: nat, e: Effect)
    requires Tidy(s) && LocksOk(s) && r in s.jobs
    requires Allowed(s.locks, s.jobs[r].call, s.jobs[r].pc, e) && KeepsTidy(s.jobs[r].pc, e)
    ensures Tidy(Perform(s, r, e))
  {
    hide HoldsLock, HasDirectory, IdOf, Unlinked, HasBytes;
  }

  lemma NextTidy(check: Checker, s: State, t: State)
    requires Inv(check, s) && Next(check, s, t) && Tidy(s)
    ensures Tidy(t)
  {
    hide Apply, Enabled, PublishedOk, JobsOk, LinksOk, LocksOk, Quiet, Tidy, Advance, Fault, Perform, Allowed, KeepsTidy;
    var e :| Enabled(s, e) && t == Apply(check, s, e);
    if e.Step? || e.Break? {
      OwnStepTidy(check, s, e);
    } else {
      OtherEventTidy(check, s, e);
    }
  }

  lemma OwnStepTidy(check: Checker, s: State, e: Event)
    requires Enabled(s, e) && (e.Step? || e.Break?) && Tidy(s) && LocksOk(s)
    ensures Tidy(Apply(check, s, e))
  {
    hide Tidy, LocksOk, Advance, Fault, Perform, Allowed, KeepsTidy;
    var r := e.request;
    if e.Step? {
      AdvanceAllowed(check, s, r);
      AdvanceTidies(check, s, r);
      PerformTidy(check, s, r, Advance(check, s, r));
    } else {
      FaultAllowed(s.locks, s.jobs[r].call, s.jobs[r].pc);
      FaultTidies(s.jobs[r].pc);
      PerformTidy(check, s, r, Fault(s.jobs[r].pc));
    }
  }

  lemma OtherEventTidy(check: Checker, s: State, e: Event)
    requires Enabled(s, e) && !e.Step? && !e.Break? && Tidy(s)
    ensures Tidy(Apply(check, s, e))
  {
    hide Tidy, HoldsLock, Advance, Fault, Perform, Crash;
    if e.Die? {
      CrashTidy(s, e.process);
    } else if e.Arrive? {
      ArriveTidy(s, e.request, e.call);
    } else {
      SameTidy(s, Apply(check, s, e));
    }
  }

  lemma ArriveTidy(s: State, r: nat, call: Call)
    requires r !in s.jobs && Tidy(s)
    ensures Tidy(s.(jobs := s.jobs[r := Job(call, Arrived)]))
  {
    hide HoldsLock, HasDirectory;
  }

  lemma SameTidy(s: State, t: State)
    requires t.jobs == s.jobs && t.staged == s.staged && t.locks == s.locks && Tidy(s)
    ensures Tidy(t)
  {
    hide HoldsLock, HasDirectory;
  }

  lemma CrashTidy(s: State, process: nat)
    requires Tidy(s)
    ensures Tidy(Crash(s, process))
  {
    EndedHoldsNothing();
    hide HoldsLock, Ended;
  }

  lemma {:induction false} RunTidy(check: Checker, run: seq<State>, n: nat)
    requires IsRun(check, run) && n < |run|
    ensures Tidy(run[n])
  {
    hide Inv, Next, Tidy;
    if n == 0 {
      NothingToTidy(run[0]);
    } else {
      RunTidy(check, run, n - 1);
      RunInv(check, run, n - 1);
      NextTidy(check, run[n - 1], run[n]);
    }
  }

  lemma NothingToTidy(s: State)
    requires Initial(s)
    ensures Tidy(s)
  {
  }

  // ----- Why a request fails -----

  /** What accounts for a request's failure between two states. */
  ghost predicate Accounts(s: State, job: Job, error: Failure) {
    match error
    case AccessDenied =>
      job.call.caller.Protected?
      && (job.call.caller.repository != job.call.repository
          || !MayRead(job.call, job.call.query.base, s.policy) || !MayRead(job.call, job.call.query.head, s.policy))
    case BadInput => IsRefused(job.call.query)
    case Busy => exists q :: q in s.jobs && s.jobs[q].call.process == job.call.process && HoldsLock(s.jobs[q].pc)
    case WrongVersion => exists bytes :: Outdated(PublishedAt(s, IdOf(job.call, bytes)), job.call.build)
    case Missing => false
    case Corrupt => false
    case _ => true
  }

  lemma AdvanceFails(check: Checker, s: State, r: nat)
    requires PublishedOk(check, s) && r in s.jobs && JobOk(check, s, r) && Tidy(s) && !s.jobs[r].pc.Failed?
    ensures AsksPolicy(s.jobs[r].pc) ==> s.jobs[r].call.caller.Protected?
    ensures Advance(check, s, r).next.Failed? ==> Accounts(s, s.jobs[r], Advance(check, s, r).next.error)
  {
    var call, pc := s.jobs[r].call, s.jobs[r].pc;
    AdvanceOk(check, s, r);
    if AtAccess(pc) {
      AccessFails(s, s.jobs[r]);
      hide AccessStep, LookupStep, CheckStep, PublishStep, Accounts;
    } else if AtLookup(pc) {
      assert HasBytes(pc) && IdOf(call, pc.bytes) in s.published ==> WholeAndFaithful(check, KeyOf(call, pc.bytes), PublishedAt(s, IdOf(call, pc.bytes)));
      LookupFails(check, s, s.jobs[r]);
      hide AccessStep, LookupStep, CheckStep, PublishStep, Accounts;
    } else if AtCheck(pc) {
      hide AccessStep, LookupStep, PublishStep, Accounts, InputOf, EnvelopeOf;
    } else {
      PublishFails(check, s, s.jobs[r], StagedCopy(s, r), OwnFile(s, r));
      hide AccessStep, LookupStep, CheckStep, PublishStep, Accounts;
    }
  }

  lemma AccessFails(s: State, job: Job)
    requires AtAccess(job.pc) && (AsksPolicy(job.pc) ==> job.call.caller.Protected?)
    ensures var next := AccessStep(s.policy, job.call, job.pc).next; next.Failed? ==> Accounts(s, job, next.error)
  {
  }

  lemma LookupFails(check: Checker, s: State, job: Job)
    requires AtLookup(job.pc) && Tidy(s) && (job.pc.LoadingHit? ==> Found(s, job.call, job.pc).Some?)
    requires job.pc.LoadingHit? ==> WholeAndFaithful(check, KeyOf(job.call, job.pc.bytes), Found(s, job.call, job.pc))
    ensures var next := LookupStep(s, job.call, job.pc).next; next.Failed? ==> Accounts(s, job, next.error)
  {
    ThresholdsInFields(job.call.query);
    hide ResolveThresholds, IsRefused, IdOf, Faithful, HoldsLock;
  }

  lemma PublishFails(check: Checker, s: State, job: Job, copy: Option<Bytes>, own: Option<Content>)
    requires !AtAccess(job.pc) && !AtLookup(job.pc) && !AtCheck(job.pc) && !job.pc.Failed?
    requires PcOk(check, job.call, job.pc, copy, own, Found(s, job.call, job.pc))
    ensures AtPublish(job.pc) ==> var next := PublishStep(s, job.call, job.pc).next; next.Failed? ==> Accounts(s, job, next.error)
  {
    hide IdOf, Faithful, Load;
  }

  lemma NextFails(check: Checker, s: State, t: State, r: nat)
    requires Inv(check, s) && Tidy(s) && Next(check, s, t) && r in s.jobs && !s.jobs[r].pc.Failed?
    requires r in t.jobs && t.jobs[r].pc.Failed?
    ensures Accounts(s, s.jobs[r], t.jobs[r].pc.error)
  {
    hide Apply, Enabled, PublishedOk, LinksOk, LocksOk, JobOk, Tidy, Advance, Fault;
    var e :| Enabled(s, e) && t == Apply(check, s, e);
    if (e.Step? || e.Break?) && e.request == r {
      OwnStepFails(check, s, e);
    } else {
      OtherEventJob(check, s, e, r);
    }
  }

  lemma OwnStepFails(check: Checker, s: State, e: Event)
    requires Enabled(s, e) && (e.Step? || e.Break?) && Tidy(s) && PublishedOk(check, s)
    requires JobOk(check, s, e.request) && !s.jobs[e.request].pc.Failed?
    ensures e.request in Apply(check, s, e).jobs
    ensures var pc := Apply(check, s, e).jobs[e.request].pc; pc.Failed? ==> Accounts(s, s.jobs[e.request], pc.error)
  {
    var r := e.request;
    if e.Step? {
      PerformedJob(s, r, Advance(check, s, r));
      hide Tidy, JobOk, PublishedOk, Advance, Fault, Perform, Accounts;
      AdvanceFails(check, s, r);
    } else {
      PerformedJob(s, r, Fault(s.jobs[r].pc));
      FaultFails(s, s.jobs[r]);
      hide Tidy, JobOk, PublishedOk, Advance, Fault, Perform, Accounts;
    }
  }

  lemma FaultFails(s: State, job: Job)
    requires !job.pc.Failed?
    ensures Fault(job.pc).next.Failed? ==> Accounts(s, job, Fault(job.pc).next.error)
  {
  }

  /** A request that fails was refused by the policy of that moment, asked for what may
      not be asked for, met another computation in its process, or met a failure of the
      system: nothing else stops it. */
  lemma WhyFailed(check: Checker, run: seq<State>, i: nat, r: nat)
    requires IsRun(check, run) && i + 1 < |run| && r in run[i].jobs && r in run[i + 1].jobs
    requires !run[i].jobs[r].pc.Failed? && run[i + 1].jobs[r].pc.Failed?
    ensures Accounts(run[i], run[i].jobs[r], run[i + 1].jobs[r].pc.error)
  {
    hide Inv, Next, Tidy, Accounts;
    RunInv(check, run, i);
    RunTidy(check, run, i);
    NextFails(check, run[i], run[i + 1], r);
  }

  // ----- Who need not compute -----

  predicate MustCompute(pc: Pc) {
    pc.Locking? || HoldsLock(pc)
  }

  /** The request has looked, and found nothing under its id. */
  ghost predicate FoundNothing(s: State, r: nat) {
    r in s.jobs && s.jobs[r].pc.Looking? && IdOf(s.jobs[r].call, s.jobs[r].pc.bytes) !in s.published
  }

  lemma AdvanceComputes(check: Checker, s: State, r: nat)
    requires r in s.jobs && (AsksPolicy(s.jobs[r].pc) ==> s.jobs[r].call.caller.Protected?)
    ensures MustCompute(Advance(check, s, r).next) ==> MustCompute(s.jobs[r].pc) || FoundNothing(s, r)
  {
    hide IdOf, Load, InputOf, KeyOf;
  }

  lemma FaultComputes(pc: Pc)
    ensures MustCompute(Fault(pc).next) ==> MustCompute(pc)
  {
  }

  lemma NextComputes(check: Checker, s: State, t: State, r: nat)
    requires Inv(check, s) && Next(check, s, t) && r in t.jobs && MustCompute(t.jobs[r].pc)
    ensures (r in s.jobs && MustCompute(s.jobs[r].pc)) || FoundNothing(s, r)
  {
    hide Apply, Enabled, Inv, FoundNothing, Advance, Fault;
    var e :| Enabled(s, e) && t == Apply(check, s, e);
    if (e.Step? || e.Break?) && e.request == r {
      OwnStepComputes(check, s, e);
    } else {
      OtherEventJob(check, s, e, r);
    }
  }

  lemma OwnStepComputes(check: Checker, s: State, e: Event)
    requires Enabled(s, e) && (e.Step? || e.Break?)
    ensures var r := e.request;
            r in s.jobs && r in Apply(check, s, e).jobs
            && (MustCompute(Apply(check, s, e).jobs[r].pc) ==> MustCompute(s.jobs[r].pc) || FoundNothing(s, r))
  {
    var r := e.request;
    if e.Step? {
      PerformedJob(s, r, Advance(check, s, r));
      hide Advance, Fault, Perform, MustCompute, FoundNothing;
      AdvanceComputes(check, s, r);
    } else {
      PerformedJob(s, r, Fault(s.jobs[r].pc));
      hide Advance, Fault, Perform, MustCompute, FoundNothing;
      FaultComputes(s.jobs[r].pc);
    }
  }

  /** A request computes only if, when it looked, its comparison was not published. */
  lemma {:induction false} ComputesOnlyWhenMissing(check: Checker, run: seq<State>, n: nat, r: nat) returns (m: nat)
    requires IsRun(check, run) && n < |run| && r in run[n].jobs && MustCompute(run[n].jobs[r].pc)
    ensures m < n && FoundNothing(run[m], r)
  {
    hide Inv, Next, FoundNothing, MustCompute;
    assert n > 0;
    RunInv(check, run, n - 1);
    NextComputes(check, run[n - 1], run[n], r);
    if FoundNothing(run[n - 1], r) {
      m := n - 1;
    } else {
      m := ComputesOnlyWhenMissing(check, run, n - 1, r);
    }
  }
}
