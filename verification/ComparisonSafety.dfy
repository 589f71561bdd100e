/** Publication safety of the comparison cache, over every interleaving. */
module ComparisonSafety {
  import opened Wrappers
  import opened Access
  import opened ComparisonProtocol

  /** The envelope belongs to the key, and its report was computed from the very
      map bytes whose hash is in that key. */
  ghost predicate Faithful(check: Checker, key: Key, envelope: Envelope) {
    && envelope.id == Sha256OfKey(key)
    && envelope.repository == key.repository && envelope.base == key.base && envelope.head == key.head
    && envelope.thresholds == key.thresholds && envelope.mapHash == key.mapHash
    && envelope.version == key.version && envelope.revision == key.revision
    && check(CheckInput(key.repository, key.base, key.head, key.thresholds, key.version, key.revision,
                        key.mapHash.bytes)) == Some(envelope.report)
  }

  ghost predicate WholeAndFaithful(check: Checker, key: Key, file: Option<Content>) {
    file.Some? && file.value.Whole? && Faithful(check, key, file.value.envelope)
  }

  /** The call could have produced this key from some map bytes. */
  ghost predicate CouldAsk(call: Call, id: Id) {
    id == IdOf(call, id.key.mapHash.bytes)
  }

  /** A published path leads to a whole, faithful envelope, created by a request
      that had this very key. */
  ghost predicate PublishedOk(check: Checker, s: State) {
    forall id :: id in s.published ==>
      && WholeAndFaithful(check, id.key, PublishedAt(s, id))
      && s.published[id] in s.jobs && CouldAsk(s.jobs[s.published[id]].call, id)
  }

  /** Requests that have not linked their file anywhere. */
  predicate Unlinked(pc: Pc) {
    !pc.Reloading? && !pc.Cleaning? && !pc.AskingBaseAgain? && !pc.AskingHeadAgain? && !Ended(pc)
  }

  predicate HoldsLock(pc: Pc) { AtCheck(pc) || AtPublish(pc) }

  predicate HasBytes(pc: Pc) {
    !pc.Arrived? && !pc.AskingBase? && !pc.AskingHead? && !pc.Resolving? && !pc.Failed?
  }

  /** The file is the given envelope, in the report version of this build. */
  ghost predicate Holds(file: Option<Content>, build: Build, envelope: Envelope) {
    file == Some(Whole(envelope)) && envelope.reportVersion == build.reportVersion
  }

  /** The file was written by a build with another report version. */
  ghost predicate Outdated(file: Option<Content>, build: Build) {
    file.Some? && file.value.Whole? && file.value.envelope.reportVersion != build.reportVersion
  }

  /** What a request at pc may rely on: its staged copy of the map, its own
      file, and the file found under its key. */
  ghost predicate PcOk(check: Checker, call: Call, pc: Pc, copy: Option<Bytes>, own: Option<Content>, found: Option<Content>) {
    && (AsksPolicy(pc) ==> call.caller.Protected?)
    && (pc.LoadingHit? || pc.Reloading? ==> found.Some?)
    && (pc.Checking? ==> copy == Some(pc.bytes))
    && (pc.Writing? || pc.WritingRest? ==> Faithful(check, KeyOf(call, pc.bytes), pc.envelope))
    && (pc.Linking? ==> WholeAndFaithful(check, KeyOf(call, pc.bytes), own))
    && (pc.Cleaning? && pc.outcome.Ok? ==> Holds(found, call.build, pc.outcome.value))
    && (pc.Cleaning? && pc.outcome.Err? ==>
          pc.outcome.error == CheckFailed || pc.outcome.error == IoFailed || pc.outcome.error == WrongVersion)
    && (pc.Cleaning? && pc.outcome == Err(WrongVersion) ==> Outdated(found, call.build))
    && (pc.AskingBaseAgain? || pc.AskingHeadAgain? || pc.Done? ==> Holds(found, call.build, pc.envelope))
    && (pc.Failed? ==> pc.error != Missing && pc.error != Corrupt)
  }

  function OwnFile(s: State, r: nat): Option<Content> {
    if r in s.files then Some(s.files[r]) else None
  }

  function Found(s: State, call: Call, pc: Pc): Option<Content> {
    if HasBytes(pc) then PublishedAt(s, IdOf(call, pc.bytes)) else None
  }

  ghost predicate JobOk(check: Checker, s: State, r: nat)
    requires r in s.jobs
  {
    var call, pc := s.jobs[r].call, s.jobs[r].pc;
    PcOk(check, call, pc, StagedCopy(s, r), OwnFile(s, r), Found(s, call, pc))
  }

  ghost predicate JobsOk(check: Checker, s: State) {
    forall r :: r in s.jobs ==> JobOk(check, s, r)
  }

  /** A file that its request has not linked is linked nowhere. */
  ghost predicate LinksOk(s: State) {
    && (forall id :: id in s.published && s.published[id] in s.jobs ==> !Unlinked(s.jobs[s.published[id]].pc))
    && (forall r :: r in s.files || r in s.staged ==> r in s.jobs)
  }

  /** The permit of a process is held by exactly the request doing its work. */
  ghost predicate LocksOk(s: State) {
    forall r :: r in s.jobs && HoldsLock(s.jobs[r].pc) ==>
      s.jobs[r].call.process in s.locks && s.locks[s.jobs[r].call.process] == r
  }

  ghost predicate Inv(check: Checker, s: State) {
    PublishedOk(check, s) && JobsOk(check, s) && LinksOk(s) && LocksOk(s)
  }

  lemma InitialInv(check: Checker, s: State)
    requires Initial(s)
    ensures Inv(check, s)
  {
  }

  // ----- One step of a request -----

  /** What any step of a request, failing or not, may do: write its own file
      only while writing, link it only under its own key once it is written, and
      take or return the permit exactly when it starts or stops holding it. */
  ghost predicate Allowed(locks: map<nat, nat>, call: Call, pc: Pc, e: Effect) {
    && (Unlinked(e.next) ==> Unlinked(pc) && !pc.Linking?)
    && (e.write.Some? ==> Unlinked(pc) && !pc.Linking?)
    && (e.link.Some? ==> pc.Linking? && e.link.value == IdOf(call, pc.bytes))
    && (HasBytes(pc) && HasBytes(e.next) ==> e.next.bytes == pc.bytes)
    && (!HasBytes(pc) && HasBytes(e.next) ==> e.next.Looking?)
    && (e.lock == Taken ==> call.process !in locks)
    && (e.lock == (if HoldsLock(e.next) && !HoldsLock(pc) then Taken
                   else if HoldsLock(pc) && !HoldsLock(e.next) then Returned else Unchanged))
  }

  lemma AccessAllowed(locks: map<nat, nat>, policy: Policy, call: Call, pc: Pc)
    requires AtAccess(pc) && (AsksPolicy(pc) ==> call.caller.Protected?)
    ensures Allowed(locks, call, pc, AccessStep(policy, call, pc))
  {
    hide IdOf, Ask;
  }

  lemma LookupAllowed(s: State, call: Call, pc: Pc)
    requires AtLookup(pc)
    ensures Allowed(s.locks, call, pc, LookupStep(s, call, pc))
  {
    hide IdOf, Load, ResolveThresholds, PublishedAt;
  }

  lemma CheckAllowed(check: Checker, locks: map<nat, nat>, copy: Option<Bytes>, clock: nat, call: Call, pc: Pc)
    requires AtCheck(pc)
    ensures Allowed(locks, call, pc, CheckStep(check, copy, clock, call, pc))
  {
    hide IdOf, EnvelopeOf, InputOf;
  }

  lemma PublishAllowed(s: State, call: Call, pc: Pc)
    requires AtPublish(pc)
    ensures Allowed(s.locks, call, pc, PublishStep(s, call, pc))
  {
    hide IdOf, Load, PublishedAt;
  }

  lemma FaultAllowed(locks: map<nat, nat>, call: Call, pc: Pc)
    ensures Allowed(locks, call, pc, Fault(pc))
  {
    hide IdOf;
  }

  lemma AdvanceAllowed(check: Checker, s: State, r: nat)
    requires r in s.jobs && (AsksPolicy(s.jobs[r].pc) ==> s.jobs[r].call.caller.Protected?)
    ensures Allowed(s.locks, s.jobs[r].call, s.jobs[r].pc, Advance(check, s, r))
  {
    var call, pc := s.jobs[r].call, s.jobs[r].pc;
    if AtAccess(pc) {
      AccessAllowed(s.locks, s.policy, call, pc);
    } else if AtLookup(pc) {
      LookupAllowed(s, call, pc);
    } else if AtCheck(pc) {
      CheckAllowed(check, s.locks, StagedCopy(s, r), s.clock, call, pc);
    } else if AtPublish(pc) {
      PublishAllowed(s, call, pc);
    }
    hide AccessStep, LookupStep, CheckStep, PublishStep, IdOf;
  }

  /** What the request sees after its step. */
  function CopyAfter(e: Effect, copy: Option<Bytes>): Option<Bytes> {
    match e.stage case Untouched => copy case Put(c) => c case Removed => None
  }

  function OwnAfter(e: Effect, own: Option<Content>): Option<Content> {
    if e.write.Some? then e.write else own
  }

  function FoundAfter(e: Effect, own: Option<Content>, found: Option<Content>): Option<Content> {
    if e.link.Some? && found.None? then own else found
  }

  ghost predicate StepOk(check: Checker, call: Call, e: Effect, copy: Option<Bytes>, own: Option<Content>, found: Option<Content>) {
    PcOk(check, call, e.next, CopyAfter(e, copy), OwnAfter(e, own), FoundAfter(e, own, found))
  }

  lemma AccessOk(check: Checker, policy: Policy, call: Call, pc: Pc,
                 copy: Option<Bytes>, own: Option<Content>, found: Option<Content>)
    requires AtAccess(pc) && PcOk(check, call, pc, copy, own, found)
    ensures StepOk(check, call, AccessStep(policy, call, pc), copy, own, found)
  {
    hide Faithful, Ask;
  }

  lemma LookupOk(check: Checker, s: State, call: Call, pc: Pc, copy: Option<Bytes>, own: Option<Content>)
    requires AtLookup(pc) && PcOk(check, call, pc, copy, own, Found(s, call, pc))
    requires HasBytes(pc) && IdOf(call, pc.bytes) in s.published ==>
               WholeAndFaithful(check, KeyOf(call, pc.bytes), Found(s, call, pc))
    ensures StepOk(check, call, LookupStep(s, call, pc), copy, own, Found(s, call, pc))
  {
    hide Faithful, ResolveThresholds, IdOf;
  }

  /** The report is computed from the staged copy, which is of the bytes read. */
  lemma CheckOk(check: Checker, clock: nat, call: Call, pc: Pc,
                copy: Option<Bytes>, own: Option<Content>, found: Option<Content>)
    requires AtCheck(pc) && PcOk(check, call, pc, copy, own, found)
    ensures StepOk(check, call, CheckStep(check, copy, clock, call, pc), copy, own, found)
  {
    if pc.Checking? {
      EnvelopeFaithful(check, call, pc.bytes, clock);
    }
    hide Faithful, EnvelopeOf, InputOf;
  }

  lemma EnvelopeFaithful(check: Checker, call: Call, bytes: Bytes, clock: nat)
    ensures var report := check(InputOf(call, bytes));
            report.Some? ==> Faithful(check, KeyOf(call, bytes), EnvelopeOf(call, bytes, report.value, clock))
  {
  }

  lemma PublishOk(check: Checker, s: State, call: Call, pc: Pc, copy: Option<Bytes>, own: Option<Content>)
    requires AtPublish(pc) && PcOk(check, call, pc, copy, own, Found(s, call, pc))
    requires IdOf(call, pc.bytes) in s.published ==>
               WholeAndFaithful(check, KeyOf(call, pc.bytes), Found(s, call, pc))
    ensures StepOk(check, call, PublishStep(s, call, pc), copy, own, Found(s, call, pc))
  {
    hide Faithful, IdOf;
  }

  lemma FaultOk(check: Checker, call: Call, pc: Pc, copy: Option<Bytes>, own: Option<Content>, found: Option<Content>)
    requires PcOk(check, call, pc, copy, own, found)
    ensures StepOk(check, call, Fault(pc), copy, own, found)
  {
    hide Faithful;
  }

  lemma AdvanceOk(check: Checker, s: State, r: nat)
    requires PublishedOk(check, s) && r in s.jobs && JobOk(check, s, r)
    ensures AsksPolicy(s.jobs[r].pc) ==> s.jobs[r].call.caller.Protected?
    ensures StepOk(check, s.jobs[r].call, Advance(check, s, r), StagedCopy(s, r), OwnFile(s, r),
                   Found(s, s.jobs[r].call, s.jobs[r].pc))
  {
    var call, pc := s.jobs[r].call, s.jobs[r].pc;
    if AtAccess(pc) {
      AccessOk(check, s.policy, call, pc, StagedCopy(s, r), OwnFile(s, r), Found(s, call, pc));
    } else if AtLookup(pc) {
      LookupOk(check, s, call, pc, StagedCopy(s, r), OwnFile(s, r));
    } else if AtCheck(pc) {
      CheckOk(check, s.clock, call, pc, StagedCopy(s, r), OwnFile(s, r), Found(s, call, pc));
    } else if AtPublish(pc) {
      PublishOk(check, s, call, pc, StagedCopy(s, r), OwnFile(s, r));
    }
    hide AccessStep, LookupStep, CheckStep, PublishStep;
  }

  /** What was published stays published, with the same content, and calls do
      not change. */
  ghost predicate Keeps(s: State, t: State) {
    && (forall r :: r in s.jobs ==> r in t.jobs && t.jobs[r].call == s.jobs[r].call)
    && (forall id :: id in s.published ==> id in t.published && t.published[id] == s.published[id])
    && (forall id :: id in s.published ==> PublishedAt(t, id) == PublishedAt(s, id))
  }

  /** A step that may be taken: what r does is allowed and leaves r in order. */
  ghost predicate MayPerform(check: Checker, s: State, r: nat, e: Effect) {
    && Inv(check, s) && r in s.jobs
    && Allowed(s.locks, s.jobs[r].call, s.jobs[r].pc, e)
    && StepOk(check, s.jobs[r].call, e, StagedCopy(s, r), OwnFile(s, r), Found(s, s.jobs[r].call, s.jobs[r].pc))
  }

  lemma PerformKeeps(check: Checker, s: State, r: nat, e: Effect)
    requires MayPerform(check, s, r, e)
    ensures Keeps(s, Perform(s, r, e))
  {
    hide PublishedOk, JobsOk, LocksOk, StepOk, IdOf;
  }

  lemma PerformPublished(check: Checker, s: State, r: nat, e: Effect)
    requires MayPerform(check, s, r, e)
    ensures PublishedOk(check, Perform(s, r, e))
  {
    hide PublishedOk, LinksOk, LocksOk, Perform, JobOk, Keeps, NewLinksOk, Allowed, StepOk;
    assert JobOk(check, s, r);
    PerformKeeps(check, s, r, e);
    NewLink(check, s, r, e);
    PublishedFromParts(check, s, Perform(s, r, e));
  }

  ghost predicate NewLinksOk(check: Checker, s: State, t: State) {
    forall id :: id in t.published && id !in s.published ==>
      && WholeAndFaithful(check, id.key, PublishedAt(t, id))
      && t.published[id] in t.jobs && CouldAsk(t.jobs[t.published[id]].call, id)
  }

  lemma PublishedFromParts(check: Checker, s: State, t: State)
    requires PublishedOk(check, s) && Keeps(s, t) && NewLinksOk(check, s, t)
    ensures PublishedOk(check, t)
  {
    hide WholeAndFaithful, CouldAsk, PublishedAt;
  }

  /** A new link is to the linking request's own whole file, under its own key. */
  lemma NewLink(check: Checker, s: State, r: nat, e: Effect)
    requires r in s.jobs && JobOk(check, s, r) && Allowed(s.locks, s.jobs[r].call, s.jobs[r].pc, e)
    ensures NewLinksOk(check, s, Perform(s, r, e))
  {
    hide Faithful;
  }

  lemma PerformLinks(check: Checker, s: State, r: nat, e: Effect)
    requires MayPerform(check, s, r, e)
    ensures LinksOk(Perform(s, r, e))
  {
    hide PublishedOk, JobsOk, LocksOk, StepOk, IdOf;
  }

  lemma PerformLocks(check: Checker, s: State, r: nat, e: Effect)
    requires MayPerform(check, s, r, e)
    ensures LocksOk(Perform(s, r, e))
  {
    hide PublishedOk, JobsOk, LinksOk, StepOk, IdOf, Unlinked, HoldsLock;
  }

  /** Finding more under a key never hurts. */
  lemma PcOkMore(check: Checker, call: Call, pc: Pc, copy: Option<Bytes>, own: Option<Content>,
                 found: Option<Content>, more: Option<Content>)
    requires PcOk(check, call, pc, copy, own, found) && (HasBytes(pc) && found.Some? ==> more == found)
    ensures PcOk(check, call, pc, copy, own, more)
  {
    hide Faithful;
  }

  lemma FoundKept(s: State, t: State, call: Call, pc: Pc)
    requires Keeps(s, t)
    ensures Found(s, call, pc).Some? ==> Found(t, call, pc) == Found(s, call, pc)
  {
    hide IdOf, HasBytes;
  }

  lemma PerformOwnJob(check: Checker, s: State, r: nat, e: Effect)
    requires MayPerform(check, s, r, e)
    ensures JobOk(check, Perform(s, r, e), r)
  {
    FoundAfterStep(check, s, r, e);
    SeenAfterStep(s, r, e);
    hide Inv, PcOk, Allowed, Perform, FoundAfter, CopyAfter, OwnAfter, Found, StagedCopy, OwnFile, HasBytes;
    var t, call := Perform(s, r, e), s.jobs[r].call;
    var own, found := OwnFile(s, r), Found(s, call, s.jobs[r].pc);
    PcOkMore(check, call, e.next, CopyAfter(e, StagedCopy(s, r)), OwnAfter(e, own), FoundAfter(e, own, found), Found(t, call, e.next));
  }

  lemma SeenAfterStep(s: State, r: nat, e: Effect)
    requires r in s.jobs
    ensures var t := Perform(s, r, e);
            && r in t.jobs && t.jobs[r] == Job(s.jobs[r].call, e.next)
            && StagedCopy(t, r) == CopyAfter(e, StagedCopy(s, r)) && OwnFile(t, r) == OwnAfter(e, OwnFile(s, r))
  {
  }

  lemma FoundAfterStep(check: Checker, s: State, r: nat, e: Effect)
    requires MayPerform(check, s, r, e)
    ensures var own, found := OwnFile(s, r), Found(s, s.jobs[r].call, s.jobs[r].pc);
            FoundAfter(e, own, found).Some? && HasBytes(e.next) ==>
              Found(Perform(s, r, e), s.jobs[r].call, e.next) == FoundAfter(e, own, found)
  {
  }

  lemma PerformJobs(check: Checker, s: State, r: nat, e: Effect)
    requires MayPerform(check, s, r, e)
    ensures JobsOk(check, Perform(s, r, e))
  {
    var t := Perform(s, r, e);
    PerformOwnJob(check, s, r, e);
    PerformKeeps(check, s, r, e);
    forall q | q in t.jobs ensures JobOk(check, t, q) {
      if q != r {
        OtherJob(check, s, t, r, e, q);
      }
    }
    hide JobOk, Perform, Inv;
  }

  lemma OtherJob(check: Checker, s: State, t: State, r: nat, e: Effect, q: nat)
    requires JobsOk(check, s) && Keeps(s, t) && r in s.jobs && t == Perform(s, r, e) && q in t.jobs && q != r
    ensures JobOk(check, t, q)
  {
    assert JobOk(check, s, q);
    var call, pc := s.jobs[q].call, s.jobs[q].pc;
    FoundKept(s, t, call, pc);
    PcOkMore(check, call, pc, StagedCopy(s, q), OwnFile(s, q), Found(s, call, pc), Found(t, call, pc));
    hide PcOk, Keeps, JobsOk, Found;
  }

  /** Every step of a request keeps the invariant and everything published. */
  lemma PerformInv(check: Checker, s: State, r: nat, e: Effect)
    requires MayPerform(check, s, r, e)
    ensures Inv(check, Perform(s, r, e)) && Keeps(s, Perform(s, r, e))
  {
    hide MayPerform, Perform, PublishedOk, JobsOk, LinksOk, LocksOk, Keeps;
    PerformKeeps(check, s, r, e);
    PerformPublished(check, s, r, e);
    PerformJobs(check, s, r, e);
    PerformLinks(check, s, r, e);
    PerformLocks(check, s, r, e);
  }

  // ----- The other events -----

  /** Steps that move no request on: arrivals, crashes, and the environment. A
      job may only stop, a new one only arrive; files and links stay as they are. */
  ghost predicate Quiet(s: State, t: State) {
    && t.files == s.files && t.staged == s.staged && t.published == s.published
    && (forall r :: r in s.jobs ==>
          && r in t.jobs && t.jobs[r].call == s.jobs[r].call
          && (t.jobs[r].pc == s.jobs[r].pc || t.jobs[r].pc == Failed(Crashed)))
    && (forall r :: r in t.jobs && r !in s.jobs ==> t.jobs[r].pc == Arrived)
    && (forall r :: r in t.jobs && HoldsLock(t.jobs[r].pc) && t.jobs[r].call.process in s.locks ==>
          t.jobs[r].call.process in t.locks && t.locks[t.jobs[r].call.process] == s.locks[t.jobs[r].call.process])
  }

  lemma QuietKeeps(s: State, t: State)
    requires Quiet(s, t)
    ensures Keeps(s, t)
  {
    hide HoldsLock;
  }

  lemma QuietPublished(check: Checker, s: State, t: State)
    requires PublishedOk(check, s) && Quiet(s, t)
    ensures PublishedOk(check, t)
  {
    QuietKeeps(s, t);
    hide HoldsLock, WholeAndFaithful, CouldAsk, PublishedAt;
  }

  lemma QuietJobs(check: Checker, s: State, t: State)
    requires JobsOk(check, s) && Quiet(s, t)
    ensures JobsOk(check, t)
  {
    forall r | r in t.jobs ensures JobOk(check, t, r) {
      if r in s.jobs {
        QuietJob(check, s, t, r);
      }
    }
    hide JobOk, Quiet;
  }

  lemma QuietJob(check: Checker, s: State, t: State, r: nat)
    requires JobsOk(check, s) && Quiet(s, t) && r in s.jobs
    ensures r in t.jobs && JobOk(check, t, r)
  {
    assert JobOk(check, s, r);
    hide JobsOk, PcOk;
    SameViews(s, t, r, s.jobs[r].call, s.jobs[r].pc);
    hide Found, OwnFile, StagedCopy;
    CrashedOk(check, s.jobs[r].call, StagedCopy(t, r), OwnFile(t, r), Found(t, s.jobs[r].call, t.jobs[r].pc));
  }

  lemma SameViews(s: State, t: State, r: nat, call: Call, pc: Pc)
    requires Quiet(s, t)
    ensures StagedCopy(t, r) == StagedCopy(s, r) && OwnFile(t, r) == OwnFile(s, r) && Found(t, call, pc) == Found(s, call, pc)
  {
    hide IdOf, HoldsLock, HasBytes;
  }

  lemma CrashedOk(check: Checker, call: Call, copy: Option<Bytes>, own: Option<Content>, found: Option<Content>)
    ensures PcOk(check, call, Failed(Crashed), copy, own, found)
  {
  }

  lemma QuietLinks(check: Checker, s: State, t: State)
    requires LinksOk(s) && PublishedOk(check, s) && Quiet(s, t)
    ensures LinksOk(t)
  {
    hide HoldsLock, WholeAndFaithful, CouldAsk, PublishedAt;
  }

  lemma QuietLocks(s: State, t: State)
    requires LocksOk(s) && Quiet(s, t)
    ensures LocksOk(t)
  {
  }

  lemma QuietInv(check: Checker, s: State, t: State)
    requires Inv(check, s) && Quiet(s, t)
    ensures Inv(check, t) && Keeps(s, t)
  {
    hide Quiet, PublishedOk, JobsOk, LinksOk, LocksOk, Keeps;
    QuietKeeps(s, t);
    QuietPublished(check, s, t);
    QuietJobs(check, s, t);
    QuietLinks(check, s, t);
    QuietLocks(s, t);
  }

  lemma CrashQuiet(s: State, process: nat)
    ensures Quiet(s, Crash(s, process))
  {
    var t := Crash(s, process);
    assert !HoldsLock(Failed(Crashed));
    EndedHoldsNothing();
    hide HoldsLock, Ended;
    forall r | r in t.jobs && HoldsLock(t.jobs[r].pc) && t.jobs[r].call.process in s.locks
      ensures t.jobs[r].call.process in t.locks && t.locks[t.jobs[r].call.process] == s.locks[t.jobs[r].call.process]
    {
      assert t.jobs[r].call.process != process;
    }
  }

  lemma EndedHoldsNothing()
    ensures forall pc :: Ended(pc) ==> !HoldsLock(pc)
  {
  }

  /** One event of any kind keeps the invariant and everything published. */
  lemma NextInv(check: Checker, s: State, t: State)
    requires Inv(check, s) && Next(check, s, t)
    ensures Inv(check, t) && Keeps(s, t)
  {
    hide Apply, Enabled, Inv, Keeps, Quiet;
    var e :| Enabled(s, e) && t == Apply(check, s, e);
    if e.Step? {
      StepInv(check, s, e.request);
    } else if e.Break? {
      BreakInv(check, s, e.request);
    } else {
      OtherEventQuiet(check, s, e);
      QuietInv(check, s, t);
    }
  }

  lemma OtherEventQuiet(check: Checker, s: State, e: Event)
    requires Inv(check, s) && Enabled(s, e) && !e.Step? && !e.Break?
    ensures Quiet(s, Apply(check, s, e))
  {
    hide Quiet, Inv, Advance, Fault, Perform, Crash;
    if e.Die? {
      CrashQuiet(s, e.process);
    } else if e.Arrive? {
      ArriveQuiet(s, e.request, e.call);
    } else {
      SameQuiet(s, Apply(check, s, e));
    }
  }

  lemma ArriveQuiet(s: State, r: nat, call: Call)
    requires r !in s.jobs
    ensures Quiet(s, s.(jobs := s.jobs[r := Job(call, Arrived)]))
  {
  }

  lemma SameQuiet(s: State, t: State)
    requires t.jobs == s.jobs && t.staged == s.staged && t.files == s.files
    requires t.published == s.published && t.locks == s.locks
    ensures Quiet(s, t)
  {
    hide HoldsLock;
  }

  lemma StepInv(check: Checker, s: State, r: nat)
    requires Inv(check, s) && Enabled(s, Step(r))
    ensures var t := Apply(check, s, Step(r)); Inv(check, t) && Keeps(s, t)
  {
    hide PublishedOk, LinksOk, LocksOk, Keeps, Advance, Perform, JobOk, StepOk, Allowed;
    assert JobOk(check, s, r);
    AdvanceAllowed(check, s, r);
    AdvanceOk(check, s, r);
    PerformInv(check, s, r, Advance(check, s, r));
  }

  lemma BreakInv(check: Checker, s: State, r: nat)
    requires Inv(check, s) && Enabled(s, Break(r))
    ensures var t := Apply(check, s, Break(r)); Inv(check, t) && Keeps(s, t)
  {
    hide PublishedOk, LinksOk, LocksOk, Keeps, Fault, Perform, PcOk, Allowed;
    assert JobOk(check, s, r);
    var pc := s.jobs[r].pc;
    FaultAllowed(s.locks, s.jobs[r].call, pc);
    FaultOk(check, s.jobs[r].call, pc, StagedCopy(s, r), OwnFile(s, r), Found(s, s.jobs[r].call, pc));
    PerformInv(check, s, r, Fault(pc));
  }
}
