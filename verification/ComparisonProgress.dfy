/** Left alone, a comparison request that may succeed does: no step is missing. */
module ComparisonProgress {
  import opened Wrappers
  import opened Access
  import opened ComparisonProtocol
  import opened ComparisonSafety
  import opened ComparisonRuns
  import opened ComparisonAnswers

  function StepOn(check: Checker, s: State, r: nat): State {
    if Enabled(s, Step(r)) then Apply(check, s, Step(r)) else s
  }

  /** Some number of steps of request r alone lead from s to t. */
  ghost predicate Reaches(check: Checker, s: State, t: State, r: nat) {
    exists steps: nat :: After(check, s, r, steps) == t
  }

  ghost function After(check: Checker, s: State, r: nat, steps: nat): State {
    if steps == 0 then s else StepOn(check, After(check, s, r, steps - 1), r)
  }

  lemma Here(check: Checker, s: State, r: nat)
    ensures Reaches(check, s, s, r)
  {
    assert After(check, s, r, 0) == s;
  }

  lemma Onward(check: Checker, s: State, t: State, u: State, r: nat)
    requires Reaches(check, s, t, r) && StepOn(check, t, r) == u
    ensures Reaches(check, s, u, r)
  {
    hide StepOn;
    var steps: nat :| After(check, s, r, steps) == t;
    assert After(check, s, r, steps + 1) == u;
  }

  /** The state s, with request r elsewhere. */
  function At(s: State, r: nat, pc: Pc): State
    requires r in s.jobs
  {
    s.(jobs := s.jobs[r := Job(s.jobs[r].call, pc)])
  }

  /** A step that only moves the request. */
  lemma MovesOn(check: Checker, s: State, r: nat, pc: Pc, next: Pc)
    requires r in s.jobs && (AsksPolicy(pc) ==> s.jobs[r].call.caller.Protected?)
    requires Advance(check, At(s, r, pc), r) == GoTo(next)
    ensures StepOn(check, At(s, r, pc), r) == At(s, r, next)
  {
    hide Advance;
  }

  // ----- To the look-up -----

  /** The request comes directly, or for the repository asked for, and the policy lets it
      read both sides. */
  ghost predicate IsAdmitted(s: State, r: nat) {
    && r in s.jobs
    && var call := s.jobs[r].call;
       (call.caller.Protected? ==>
          && call.caller.repository == call.repository
          && MayRead(call, call.query.base, s.policy) && MayRead(call, call.query.head, s.policy))
  }

  /** The request may be answered: it is admitted, not to be refused, and its map is there. */
  ghost predicate MaySucceed(s: State, r: nat) {
    IsAdmitted(s, r) && !IsRefused(s.jobs[r].call.query) && s.jobs[r].call.mapPath in s.maps
  }

  lemma IsAllowed(check: Checker, s: State, r: nat, pc: Pc, next: Pc)
    requires IsAdmitted(s, r) && AtAccess(pc) && (pc.Arrived? || s.jobs[r].call.caller.Protected?)
    requires AccessStep(s.policy, s.jobs[r].call, pc) == GoTo(next)
    ensures StepOn(check, At(s, r, pc), r) == At(s, r, next)
  {
    hide AccessStep, LookupStep, CheckStep, PublishStep;
    MovesOn(check, s, r, pc, next);
  }

  lemma Resolves(check: Checker, s: State, r: nat)
    requires MaySucceed(s, r)
    ensures StepOn(check, At(s, r, Resolving), r) == At(s, r, Looking(s.maps[s.jobs[r].call.mapPath]))
  {
    ThresholdsInFields(s.jobs[r].call.query);
    hide IsRefused, ResolveThresholds;
    MovesOn(check, s, r, Resolving, Looking(s.maps[s.jobs[r].call.mapPath]));
  }

  lemma Enters(check: Checker, s: State, r: nat)
    requires IsAdmitted(s, r)
    ensures Reaches(check, At(s, r, Arrived), At(s, r, Resolving), r)
  {
    var call, start := s.jobs[r].call, At(s, r, Arrived);
    Here(check, start, r);
    hide Reaches, StepOn, At;
    if call.caller.Protected? {
      IsAllowed(check, s, r, Arrived, AskingBase);
      Onward(check, start, start, At(s, r, AskingBase), r);
      IsAllowed(check, s, r, AskingBase, AskingHead);
      Onward(check, start, At(s, r, AskingBase), At(s, r, AskingHead), r);
      IsAllowed(check, s, r, AskingHead, Resolving);
      Onward(check, start, At(s, r, AskingHead), At(s, r, Resolving), r);
    } else {
      IsAllowed(check, s, r, Arrived, Resolving);
      Onward(check, start, start, At(s, r, Resolving), r);
    }
  }

  lemma Looks(check: Checker, s: State, r: nat)
    requires MaySucceed(s, r)
    ensures Reaches(check, At(s, r, Arrived), At(s, r, Looking(s.maps[s.jobs[r].call.mapPath])), r)
  {
    hide Reaches, StepOn, IsRefused, At;
    Enters(check, s, r);
    Resolves(check, s, r);
    Onward(check, At(s, r, Arrived), At(s, r, Resolving), At(s, r, Looking(s.maps[s.jobs[r].call.mapPath])), r);
  }

  // ----- From a result to its delivery -----

  lemma Delivers(check: Checker, start: State, s: State, r: nat, bytes: Bytes, envelope: Envelope)
    requires MaySucceed(s, r) && Reaches(check, start, At(s, r, Deliver(s.jobs[r].call, bytes, Ok(envelope))), r)
    ensures Reaches(check, start, At(s, r, Done(bytes, envelope)), r)
  {
    hide Reaches, StepOn, IsRefused;
    if s.jobs[r].call.caller.Protected? {
      MovesOn(check, s, r, AskingBaseAgain(bytes, envelope), AskingHeadAgain(bytes, envelope));
      Onward(check, start, At(s, r, AskingBaseAgain(bytes, envelope)), At(s, r, AskingHeadAgain(bytes, envelope)), r);
      MovesOn(check, s, r, AskingHeadAgain(bytes, envelope), Done(bytes, envelope));
      Onward(check, start, At(s, r, AskingHeadAgain(bytes, envelope)), At(s, r, Done(bytes, envelope)), r);
    }
  }

  /** A request for a comparison that is already published, by a build of the same report
      version, is answered with it, whoever is computing. */
  lemma HitSucceeds(check: Checker, s: State, r: nat, envelope: Envelope)
    requires MaySucceed(s, r) && s.jobs[r].pc == Arrived
    requires var call := s.jobs[r].call;
             PublishedAt(s, IdOf(call, s.maps[call.mapPath])) == Some(Whole(envelope)) && envelope.reportVersion == call.build.reportVersion
    ensures var call := s.jobs[r].call;
            Reaches(check, s, At(s, r, Done(s.maps[call.mapPath], envelope)), r)
  {
    var call := s.jobs[r].call;
    var bytes := s.maps[call.mapPath];
    Looks(check, s, r);
    assert At(s, r, Arrived) == s;
    hide Reaches, StepOn, IsRefused, IdOf;
    MovesOn(check, s, r, Looking(bytes), LoadingHit(bytes));
    Onward(check, s, At(s, r, Looking(bytes)), At(s, r, LoadingHit(bytes)), r);
    MovesOn(check, s, r, LoadingHit(bytes), Deliver(call, bytes, Ok(envelope)));
    Onward(check, s, At(s, r, LoadingHit(bytes)), At(s, r, Deliver(call, bytes, Ok(envelope))), r);
    Delivers(check, s, s, r, bytes, envelope);
  }

  // ----- The computation -----

  lemma StepsOn(check: Checker, s: State, t: State, r: nat, pc: Pc, next: Pc)
    requires r in s.jobs && t.jobs == s.jobs && !AsksPolicy(pc)
    requires Perform(At(s, r, pc), r, Advance(check, At(s, r, pc), r)) == At(t, r, next)
    ensures StepOn(check, At(s, r, pc), r) == At(t, r, next)
  {
    hide Perform, Advance;
  }

  /** The state in which r has published its envelope and cleaned up. */
  function Published(s: State, r: nat, bytes: Bytes, envelope: Envelope): State
    requires r in s.jobs
  {
    s.(files := s.files[r := Whole(envelope)], staged := s.staged - {r},
       published := s.published[IdOf(s.jobs[r].call, bytes) := r], locks := s.locks - {s.jobs[r].call.process})
  }

  // What single steps do to the state, and that they do it.

  function Permitted(s: State, r: nat): (t: State)
    requires r in s.jobs
    ensures t.jobs == s.jobs && t.published == s.published && t.clock == s.clock
  {
    s.(locks := s.locks[s.jobs[r].call.process := r])
  }

  function Staged(s: State, r: nat, copy: Option<Bytes>): (t: State)
    ensures t.jobs == s.jobs && t.published == s.published && t.clock == s.clock && r in t.staged && t.staged[r] == copy
  {
    s.(staged := s.staged[r := copy])
  }

  function Written(s: State, r: nat, content: Content): (t: State)
    ensures t.jobs == s.jobs && t.published == s.published && r in t.files && t.files[r] == content
  {
    s.(files := s.files[r := content])
  }

  function Linked(s: State, r: nat, id: Id): (t: State)
    ensures t.jobs == s.jobs && (r in s.files ==> PublishedAt(t, id) == Some(s.files[r]))
  {
    s.(published := s.published[id := r])
  }

  function Cleaned(s: State, r: nat): (t: State)
    requires r in s.jobs
    ensures t.jobs == s.jobs
  {
    s.(staged := s.staged - {r}, locks := s.locks - {s.jobs[r].call.process})
  }

  lemma FindsNothing(check: Checker, s: State, r: nat, bytes: Bytes)
    requires r in s.jobs && IdOf(s.jobs[r].call, bytes) !in s.published
    ensures StepOn(check, At(s, r, Looking(bytes)), r) == At(s, r, Locking(bytes))
  {
    hide IdOf;
    MovesOn(check, s, r, Looking(bytes), Locking(bytes));
  }

  lemma TakesPermit(check: Checker, s: State, r: nat, bytes: Bytes)
    requires r in s.jobs && s.jobs[r].call.process !in s.locks
    ensures StepOn(check, At(s, r, Locking(bytes)), r) == At(Permitted(s, r), r, Staging(bytes))
  {
    StepsOn(check, s, Permitted(s, r), r, Locking(bytes), Staging(bytes));
  }

  lemma MakesDirectory(check: Checker, s: State, r: nat, bytes: Bytes)
    requires r in s.jobs
    ensures StepOn(check, At(s, r, Staging(bytes)), r) == At(Staged(s, r, None), r, Copying(bytes))
  {
    StepsOn(check, s, Staged(s, r, None), r, Staging(bytes), Copying(bytes));
  }

  lemma CopiesMap(check: Checker, s: State, r: nat, bytes: Bytes)
    requires r in s.jobs
    ensures StepOn(check, At(s, r, Copying(bytes)), r) == At(Staged(s, r, Some(bytes)), r, Checking(bytes))
  {
    StepsOn(check, s, Staged(s, r, Some(bytes)), r, Copying(bytes), Checking(bytes));
  }

  lemma Checks(check: Checker, s: State, r: nat, bytes: Bytes, report: string)
    requires r in s.jobs && r in s.staged && s.staged[r] == Some(bytes) && check(InputOf(s.jobs[r].call, bytes)) == Some(report)
    ensures StepOn(check, At(s, r, Checking(bytes)), r)
         == At(s, r, Writing(bytes, EnvelopeOf(s.jobs[r].call, bytes, report, s.clock)))
  {
    hide InputOf, EnvelopeOf;
    MovesOn(check, s, r, Checking(bytes), Writing(bytes, EnvelopeOf(s.jobs[r].call, bytes, report, s.clock)));
  }

  lemma WritesPart(check: Checker, s: State, r: nat, bytes: Bytes, envelope: Envelope)
    requires r in s.jobs
    ensures StepOn(check, At(s, r, Writing(bytes, envelope)), r) == At(Written(s, r, Partial), r, WritingRest(bytes, envelope))
  {
    StepsOn(check, s, Written(s, r, Partial), r, Writing(bytes, envelope), WritingRest(bytes, envelope));
  }

  lemma WritesRest(check: Checker, s: State, r: nat, bytes: Bytes, envelope: Envelope)
    requires r in s.jobs
    ensures StepOn(check, At(s, r, WritingRest(bytes, envelope)), r) == At(Written(s, r, Whole(envelope)), r, Linking(bytes))
  {
    StepsOn(check, s, Written(s, r, Whole(envelope)), r, WritingRest(bytes, envelope), Linking(bytes));
  }

  lemma Links(check: Checker, s: State, r: nat, bytes: Bytes)
    requires r in s.jobs && IdOf(s.jobs[r].call, bytes) !in s.published
    ensures StepOn(check, At(s, r, Linking(bytes)), r) == At(Linked(s, r, IdOf(s.jobs[r].call, bytes)), r, Reloading(bytes))
  {
    hide IdOf;
    StepsOn(check, s, Linked(s, r, IdOf(s.jobs[r].call, bytes)), r, Linking(bytes), Reloading(bytes));
  }

  lemma Reloads(check: Checker, s: State, r: nat, bytes: Bytes, envelope: Envelope)
    requires r in s.jobs && PublishedAt(s, IdOf(s.jobs[r].call, bytes)) == Some(Whole(envelope))
    requires envelope.reportVersion == s.jobs[r].call.build.reportVersion
    ensures StepOn(check, At(s, r, Reloading(bytes)), r) == At(s, r, Cleaning(bytes, Ok(envelope)))
  {
    hide IdOf;
    MovesOn(check, s, r, Reloading(bytes), Cleaning(bytes, Ok(envelope)));
  }

  lemma CleansUp(check: Checker, s: State, r: nat, bytes: Bytes, envelope: Envelope)
    requires r in s.jobs
    ensures StepOn(check, At(s, r, Cleaning(bytes, Ok(envelope))), r)
         == At(Cleaned(s, r), r, Deliver(s.jobs[r].call, bytes, Ok(envelope)))
  {
    hide Deliver;
    StepsOn(check, s, Cleaned(s, r), r, Cleaning(bytes, Ok(envelope)), Deliver(s.jobs[r].call, bytes, Ok(envelope)));
  }

  /** From the look-up that finds nothing to the published result. */
  lemma Computes(check: Checker, s: State, r: nat, bytes: Bytes, report: string)
    requires r in s.jobs && s.jobs[r].call.process !in s.locks
    requires var call := s.jobs[r].call;
             IdOf(call, bytes) !in s.published && check(InputOf(call, bytes)) == Some(report)
    ensures var call := s.jobs[r].call;
            var envelope := EnvelopeOf(call, bytes, report, s.clock);
            Reaches(check, At(s, r, Looking(bytes)), At(Published(s, r, bytes, envelope), r, Deliver(call, bytes, Ok(envelope))), r)
  {
    var call, start := s.jobs[r].call, At(s, r, Looking(bytes));
    var envelope := EnvelopeOf(call, bytes, report, s.clock);
    assert envelope.reportVersion == call.build.reportVersion;
    hide IdOf, InputOf, EnvelopeOf, Deliver, Reaches, StepOn, At, Permitted, Staged, Published;
    Here(check, start, r);
    FindsNothing(check, s, r, bytes);
    Onward(check, start, start, At(s, r, Locking(bytes)), r);
    TakesPermit(check, s, r, bytes);
    var s1 := Permitted(s, r);
    Onward(check, start, At(s, r, Locking(bytes)), At(s1, r, Staging(bytes)), r);
    MakesDirectory(check, s1, r, bytes);
    var s2 := Staged(s1, r, None);
    Onward(check, start, At(s1, r, Staging(bytes)), At(s2, r, Copying(bytes)), r);
    CopiesMap(check, s2, r, bytes);
    var s3 := Staged(s2, r, Some(bytes));
    Onward(check, start, At(s2, r, Copying(bytes)), At(s3, r, Checking(bytes)), r);
    Checks(check, s3, r, bytes, report);
    Onward(check, start, At(s3, r, Checking(bytes)), At(s3, r, Writing(bytes, envelope)), r);
    Publishes(check, start, s3, r, bytes, envelope);
    CleanedUp(s, r, bytes, envelope);
  }

  lemma Publishes(check: Checker, start: State, s: State, r: nat, bytes: Bytes, envelope: Envelope)
    requires r in s.jobs && IdOf(s.jobs[r].call, bytes) !in s.published
    requires envelope.reportVersion == s.jobs[r].call.build.reportVersion
    requires Reaches(check, start, At(s, r, Writing(bytes, envelope)), r)
    ensures var call := s.jobs[r].call;
            var end := Cleaned(Linked(Written(Written(s, r, Partial), r, Whole(envelope)), r, IdOf(call, bytes)), r);
            Reaches(check, start, At(end, r, Deliver(call, bytes, Ok(envelope))), r)
  {
    hide Reaches, StepOn, IdOf, At, Deliver, Written, Linked, Cleaned;
    var call := s.jobs[r].call;
    WritesPart(check, s, r, bytes, envelope);
    var s1 := Written(s, r, Partial);
    Onward(check, start, At(s, r, Writing(bytes, envelope)), At(s1, r, WritingRest(bytes, envelope)), r);
    WritesRest(check, s1, r, bytes, envelope);
    var s2 := Written(s1, r, Whole(envelope));
    Onward(check, start, At(s1, r, WritingRest(bytes, envelope)), At(s2, r, Linking(bytes)), r);
    Links(check, s2, r, bytes);
    var s3 := Linked(s2, r, IdOf(call, bytes));
    Onward(check, start, At(s2, r, Linking(bytes)), At(s3, r, Reloading(bytes)), r);
    Reloads(check, s3, r, bytes, envelope);
    Onward(check, start, At(s3, r, Reloading(bytes)), At(s3, r, Cleaning(bytes, Ok(envelope))), r);
    CleansUp(check, s3, r, bytes, envelope);
    Onward(check, start, At(s3, r, Cleaning(bytes, Ok(envelope))), At(Cleaned(s3, r), r, Deliver(call, bytes, Ok(envelope))), r);
  }

  lemma CleanedUp(s: State, r: nat, bytes: Bytes, envelope: Envelope)
    requires r in s.jobs && s.jobs[r].call.process !in s.locks
    ensures var staged := Staged(Staged(Permitted(s, r), r, None), r, Some(bytes));
            Cleaned(Linked(Written(Written(staged, r, Partial), r, Whole(envelope)), r, IdOf(s.jobs[r].call, bytes)), r)
              == Published(s, r, bytes, envelope)
  {
    hide IdOf, PublishedAt;
    var process := s.jobs[r].call.process;
    assert s.locks[process := r] - {process} == s.locks - {process};
    assert s.staged[r := None][r := Some(bytes)] - {r} == s.staged - {r};
    assert s.files[r := Partial][r := Whole(envelope)] == s.files[r := Whole(envelope)];
  }

  /** The check has a report for what the request asks for, whatever its thresholds. */
  ghost predicate CanReport(check: Checker, call: Call, bytes: Bytes) {
    forall thresholds ::
      check(CheckInput(call.repository, call.query.base, call.query.head, thresholds,
                       call.build.version, call.build.revision, bytes)).Some?
  }

  /** Left alone, a request for a comparison that is not published computes it, publishes
      it and returns it, with the time of the check, and leaves no permit or staging behind. */
  lemma MissSucceeds(check: Checker, s: State, r: nat) returns (t: State, envelope: Envelope)
    requires MaySucceed(s, r) && s.jobs[r].pc == Arrived && s.jobs[r].call.process !in s.locks
    requires var call := s.jobs[r].call;
             IdOf(call, s.maps[call.mapPath]) !in s.published && CanReport(check, call, s.maps[call.mapPath])
    ensures var call := s.jobs[r].call;
            var bytes := s.maps[call.mapPath];
            && Reaches(check, s, t, r) && r in t.jobs && t.jobs[r] == Job(call, Done(bytes, envelope))
            && PublishedAt(t, IdOf(call, bytes)) == Some(Whole(envelope)) && envelope.createdAt == s.clock
            && r !in t.staged && call.process !in t.locks
  {
    var call := s.jobs[r].call;
    var bytes := s.maps[call.mapPath];
    Looks(check, s, r);
    assert At(s, r, Arrived) == s;
    var report := check(InputOf(call, bytes)).value;
    envelope := EnvelopeOf(call, bytes, report, s.clock);
    Computes(check, s, r, bytes, report);
    Joined(check, s, At(s, r, Looking(bytes)), At(Published(s, r, bytes, envelope), r, Deliver(call, bytes, Ok(envelope))), r);
    hide Reaches, IdOf, IsRefused;
    Delivers(check, s, Published(s, r, bytes, envelope), r, bytes, envelope);
    t := At(Published(s, r, bytes, envelope), r, Done(bytes, envelope));
  }

  lemma Joined(check: Checker, s: State, t: State, u: State, r: nat)
    requires Reaches(check, s, t, r) && Reaches(check, t, u, r)
    ensures Reaches(check, s, u, r)
  {
    hide StepOn;
    var steps: nat :| After(check, s, r, steps) == t;
    var more: nat :| After(check, t, r, more) == u;
    JoinedSteps(check, s, r, steps, more);
    assert After(check, s, r, steps + more) == u;
  }

  lemma {:induction false} JoinedSteps(check: Checker, s: State, r: nat, steps: nat, more: nat)
    ensures After(check, s, r, steps + more) == After(check, After(check, s, r, steps), r, more)
  {
    hide StepOn;
    if more > 0 {
      JoinedSteps(check, s, r, steps, more - 1);
    }
  }

  // ----- How a lone request fails -----

  /** The request ends, left alone, with this failure. */
  ghost predicate EndsIn(check: Checker, s: State, r: nat, error: Failure) {
    r in s.jobs && Reaches(check, s, At(s, r, Failed(error)), r)
  }

  lemma Ends(check: Checker, s: State, r: nat, pc: Pc, error: Failure)
    requires r in s.jobs && s.jobs[r].pc == Arrived && Reaches(check, At(s, r, Arrived), At(s, r, pc), r)
    requires AsksPolicy(pc) ==> s.jobs[r].call.caller.Protected?
    requires Advance(check, At(s, r, pc), r) == GoTo(Failed(error))
    ensures EndsIn(check, s, r, error)
  {
    assert At(s, r, Arrived) == s;
    hide Reaches, StepOn, Advance;
    MovesOn(check, s, r, pc, Failed(error));
    Onward(check, s, At(s, r, pc), At(s, r, Failed(error)), r);
  }

  /** A query that is refused ends as a bad input, before the map is read. */
  lemma RefusedFails(check: Checker, s: State, r: nat)
    requires IsAdmitted(s, r) && s.jobs[r].pc == Arrived && IsRefused(s.jobs[r].call.query)
    ensures EndsIn(check, s, r, BadInput)
  {
    Enters(check, s, r);
    ThresholdsInFields(s.jobs[r].call.query);
    hide Reaches, IsRefused, ResolveThresholds, EndsIn;
    Ends(check, s, r, Resolving, BadInput);
  }

  /** A map that is not there ends the request as unavailable. */
  lemma NoMapFails(check: Checker, s: State, r: nat)
    requires IsAdmitted(s, r) && s.jobs[r].pc == Arrived
    requires !IsRefused(s.jobs[r].call.query) && s.jobs[r].call.mapPath !in s.maps
    ensures EndsIn(check, s, r, Unavailable)
  {
    Enters(check, s, r);
    ThresholdsInFields(s.jobs[r].call.query);
    hide Reaches, IsRefused, ResolveThresholds, EndsIn;
    Ends(check, s, r, Resolving, Unavailable);
  }

  /** A computation of its process ends a request for what is not published as busy. */
  lemma BusyFails(check: Checker, s: State, r: nat)
    requires MaySucceed(s, r) && s.jobs[r].pc == Arrived && s.jobs[r].call.process in s.locks
    requires IdOf(s.jobs[r].call, s.maps[s.jobs[r].call.mapPath]) !in s.published
    ensures EndsIn(check, s, r, Busy)
  {
    var bytes := s.maps[s.jobs[r].call.mapPath];
    Looks(check, s, r);
    FindsNothing(check, s, r, bytes);
    Onward(check, At(s, r, Arrived), At(s, r, Looking(bytes)), At(s, r, Locking(bytes)), r);
    hide Reaches, IsRefused, EndsIn, IdOf, StepOn;
    Ends(check, s, r, Locking(bytes), Busy);
  }

  /** What a build of another report version has published ends the request as such. */
  lemma OutdatedFails(check: Checker, s: State, r: nat)
    requires MaySucceed(s, r) && s.jobs[r].pc == Arrived
    requires Outdated(PublishedAt(s, IdOf(s.jobs[r].call, s.maps[s.jobs[r].call.mapPath])), s.jobs[r].call.build)
    ensures EndsIn(check, s, r, WrongVersion)
  {
    var bytes := s.maps[s.jobs[r].call.mapPath];
    Looks(check, s, r);
    hide Reaches, IsRefused, EndsIn, IdOf, StepOn;
    MovesOn(check, s, r, Looking(bytes), LoadingHit(bytes));
    Onward(check, At(s, r, Arrived), At(s, r, Looking(bytes)), At(s, r, LoadingHit(bytes)), r);
    Ends(check, s, r, LoadingHit(bytes), WrongVersion);
  }

  /** A request behind the boundary for another repository, or one the policy does not let
      read the base, or the head, ends as denied; nothing of the cache is touched. */
  lemma DeniedFails(check: Checker, s: State, r: nat)
    requires r in s.jobs && s.jobs[r].pc == Arrived && s.jobs[r].call.caller.Protected? && !IsAdmitted(s, r)
    ensures EndsIn(check, s, r, AccessDenied)
  {
    var call := s.jobs[r].call;
    Here(check, At(s, r, Arrived), r);
    hide Reaches, EndsIn, StepOn, LookupStep, CheckStep, PublishStep;
    if call.caller.repository != call.repository {
      Ends(check, s, r, Arrived, AccessDenied);
    } else {
      MovesOn(check, s, r, Arrived, AskingBase);
      Onward(check, At(s, r, Arrived), At(s, r, Arrived), At(s, r, AskingBase), r);
      if !MayRead(call, call.query.base, s.policy) {
        Ends(check, s, r, AskingBase, AccessDenied);
      } else {
        MovesOn(check, s, r, AskingBase, AskingHead);
        Onward(check, At(s, r, Arrived), At(s, r, AskingBase), At(s, r, AskingHead), r);
        Ends(check, s, r, AskingHead, AccessDenied);
      }
    }
  }

  lemma ChecksInVain(check: Checker, s: State, r: nat, bytes: Bytes)
    requires r in s.jobs && r in s.staged && s.staged[r] == Some(bytes) && check(InputOf(s.jobs[r].call, bytes)) == None
    ensures StepOn(check, At(s, r, Checking(bytes)), r) == At(s, r, Cleaning(bytes, Err(CheckFailed)))
  {
    hide InputOf;
    MovesOn(check, s, r, Checking(bytes), Cleaning(bytes, Err(CheckFailed)));
  }

  lemma CleansUpAfter(check: Checker, s: State, r: nat, bytes: Bytes, error: Failure)
    requires r in s.jobs
    ensures StepOn(check, At(s, r, Cleaning(bytes, Err(error))), r) == At(Cleaned(s, r), r, Failed(error))
  {
    StepsOn(check, s, Cleaned(s, r), r, Cleaning(bytes, Err(error)), Failed(error));
  }

  /** A check that fails ends the request as such: nothing is published, and no permit or
      staging directory is left behind. */
  lemma CheckFails(check: Checker, s: State, r: nat) returns (t: State)
    requires MaySucceed(s, r) && s.jobs[r].pc == Arrived && s.jobs[r].call.process !in s.locks
    requires var call := s.jobs[r].call;
             IdOf(call, s.maps[call.mapPath]) !in s.published && check(InputOf(call, s.maps[call.mapPath])) == None
    ensures Reaches(check, s, t, r) && r in t.jobs && t.jobs[r].pc == Failed(CheckFailed)
    ensures t.published == s.published && t.files == s.files && r !in t.staged && s.jobs[r].call.process !in t.locks
  {
    var call, bytes := s.jobs[r].call, s.maps[s.jobs[r].call.mapPath];
    Looks(check, s, r);
    assert At(s, r, Arrived) == s;
    hide IdOf, InputOf, Reaches, StepOn, At, Permitted, Staged, Cleaned, IsRefused;
    FindsNothing(check, s, r, bytes);
    Onward(check, s, At(s, r, Looking(bytes)), At(s, r, Locking(bytes)), r);
    TakesPermit(check, s, r, bytes);
    var s1 := Permitted(s, r);
    Onward(check, s, At(s, r, Locking(bytes)), At(s1, r, Staging(bytes)), r);
    MakesDirectory(check, s1, r, bytes);
    var s2 := Staged(s1, r, None);
    Onward(check, s, At(s1, r, Staging(bytes)), At(s2, r, Copying(bytes)), r);
    CopiesMap(check, s2, r, bytes);
    var s3 := Staged(s2, r, Some(bytes));
    Onward(check, s, At(s2, r, Copying(bytes)), At(s3, r, Checking(bytes)), r);
    ChecksInVain(check, s3, r, bytes);
    Onward(check, s, At(s3, r, Checking(bytes)), At(s3, r, Cleaning(bytes, Err(CheckFailed))), r);
    CleansUpAfter(check, s3, r, bytes, CheckFailed);
    t := At(Cleaned(s3, r), r, Failed(CheckFailed));
    Onward(check, s, At(s3, r, Cleaning(bytes, Err(CheckFailed))), t, r);
    LeavesNothing(s, r, bytes);
  }

  lemma LeavesNothing(s: State, r: nat, bytes: Bytes)
    requires r in s.jobs
    ensures var t := At(Cleaned(Staged(Staged(Permitted(s, r), r, None), r, Some(bytes)), r), r, Failed(CheckFailed));
            && r in t.jobs && t.jobs[r].pc == Failed(CheckFailed)
            && t.published == s.published && t.files == s.files && r !in t.staged && s.jobs[r].call.process !in t.locks
  {
  }
}
