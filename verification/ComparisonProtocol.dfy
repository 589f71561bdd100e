/** The comparison cache as a transition system. Any number of requests, in any
    number of processes, share one cache directory; the policy, the base maps
    and the clock change between steps, any file operation may fail, and a
    process may crash at any step. */
module ComparisonProtocol {
  import opened Wrappers
  import opened Access
  import opened Rounding

  type Bytes = seq<int>

  /** Digests without collisions: equal digests have equal preimages. */
  datatype MapHash = Sha256OfMap(bytes: Bytes)
  datatype Id = Sha256OfKey(key: Key)

  // ----- Thresholds -----

  datatype ThresholdSource = ReportOnly | Flags | Default

  datatype Thresholds = Thresholds(maxDistricts: Option<nat>, maxDq: Option<real>, source: ThresholdSource)

  const DEFAULT_MAX_DISTRICTS := 4
  const DEFAULT_MAX_DQ := 0.0001

  datatype Query = Query(base: string, head: string, maxDistricts: Option<nat>, maxDq: Option<real>, reportOnly: bool)

  function ResolveThresholds(query: Query): Result<Thresholds, Failure> {
    var given := query.maxDistricts.Some? || query.maxDq.Some?;
    if query.reportOnly && given then Err(BadInput)
    else if query.maxDq.Some? && query.maxDq.value < 0.0 then Err(BadInput)
    else if query.reportOnly then Ok(Thresholds(None, None, ReportOnly))
    else if given then
      Ok(Thresholds(query.maxDistricts, if query.maxDq.Some? then Some(Round(query.maxDq.value)) else None, Flags))
    else Ok(Thresholds(Some(DEFAULT_MAX_DISTRICTS), Some(DEFAULT_MAX_DQ), Default))
  }

  // ----- Keys, reports and envelopes -----

  /** A program revision, and the report version its code writes and reads. */
  datatype Build = Build(version: string, revision: string, reportVersion: nat)

  /** Everything the cache file's name is a digest of. */
  datatype Key = Key(repository: string, base: string, head: string, thresholds: Thresholds,
                     version: string, revision: string, domain: Option<string>, mapHash: MapHash)

  /** Everything a check's report depends on. */
  datatype CheckInput = CheckInput(repository: string, base: string, head: string, thresholds: Thresholds,
                                   version: string, revision: string, map_: Bytes)

  /** The check itself: a report, or none when it fails or panics. */
  type Checker = CheckInput -> Option<string>

  datatype Envelope = Envelope(id: Id, report: string, repository: string, base: string, head: string,
                               thresholds: Thresholds, mapHash: MapHash, version: string, revision: string,
                               reportVersion: nat, createdAt: nat)

  // ----- Requests -----

  /** A request behind the access boundary, or a direct call of `run`. */
  datatype Caller = Protected(principal: string, domain: string, repository: string) | Direct

  datatype Call = Call(process: nat, build: Build, repository: string, mapPath: string, query: Query, caller: Caller)

  datatype Failure = AccessDenied | BadInput | Unavailable | Busy | CheckFailed | IoFailed | WrongVersion
                   | Missing | Corrupt | Crashed

  /** Where a request is. `bytes` are the map bytes it has read; they fix its key. */
  datatype Pc =
    | Arrived
    | AskingBase
    | AskingHead
    | Resolving
    | Looking(bytes: Bytes)
    | LoadingHit(bytes: Bytes)
    | Locking(bytes: Bytes)
    | Staging(bytes: Bytes)
    | Copying(bytes: Bytes)
    | Checking(bytes: Bytes)
    | Writing(bytes: Bytes, envelope: Envelope)
    | WritingRest(bytes: Bytes, envelope: Envelope)
    | Linking(bytes: Bytes)
    | Reloading(bytes: Bytes)
    | Cleaning(bytes: Bytes, outcome: Result<Envelope, Failure>)
    | AskingBaseAgain(bytes: Bytes, envelope: Envelope)
    | AskingHeadAgain(bytes: Bytes, envelope: Envelope)
    | Done(bytes: Bytes, envelope: Envelope)
    | Failed(error: Failure)

  datatype Job = Job(call: Call, pc: Pc)

  /** The content of a comparison file: cut short by a write in progress, or whole. */
  datatype Content = Partial | Whole(envelope: Envelope)

  /** Requests, staging directories and the files created in them are named by
      the same fresh number, as the random directory name provides. A published
      path is a link to the file of the request that created it. */
  datatype State = State(
    jobs: map<nat, Job>,
    staged: map<nat, Option<Bytes>>,
    files: map<nat, Content>,
    published: map<Id, nat>,
    locks: map<nat, nat>,
    maps: map<string, Bytes>,
    policy: Policy,
    clock: nat)

  function KeyOf(call: Call, bytes: Bytes): Key {
    var thresholds := ResolveThresholds(call.query);
    Key(call.repository, call.query.base, call.query.head,
        if thresholds.Ok? then thresholds.value else Thresholds(None, None, Default),
        call.build.version, call.build.revision,
        if call.caller.Protected? then Some(call.caller.domain) else None,
        Sha256OfMap(bytes))
  }

  function IdOf(call: Call, bytes: Bytes): Id {
    Sha256OfKey(KeyOf(call, bytes))
  }

  /** What the check of a request reads: its query, and the staged copy of the map. */
  function InputOf(call: Call, map_: Bytes): CheckInput {
    var key := KeyOf(call, map_);
    CheckInput(key.repository, key.base, key.head, key.thresholds, key.version, key.revision, map_)
  }

  function EnvelopeOf(call: Call, bytes: Bytes, report: string, clock: nat): Envelope {
    var key := KeyOf(call, bytes);
    Envelope(Sha256OfKey(key), report, key.repository, key.base, key.head, key.thresholds, key.mapHash,
             key.version, key.revision, call.build.reportVersion, clock)
  }

  function Ask(call: Call, revision: string): Request
    requires call.caller.Protected?
  {
    Request(call.caller.principal, Read, Resource(call.caller.domain, call.caller.repository, Some(revision)))
  }

  // ----- Steps -----

  datatype StageChange = Untouched | Put(copy: Option<Bytes>) | Removed

  datatype LockChange = Unchanged | Taken | Returned

  /** What one step of a request does: where it goes on, what it writes to its
      own file, its own staging directory, the link it makes, and the permit. */
  datatype Effect = Effect(next: Pc, write: Option<Content>, stage: StageChange, link: Option<Id>, lock: LockChange)

  function GoTo(next: Pc): Effect { Effect(next, None, Untouched, None, Unchanged) }

  /** One of the two policy questions of `check_both`. */
  function AskThen(policy: Policy, call: Call, revision: string, next: Pc): (e: Effect)
    requires call.caller.Protected?
    ensures e == GoTo(if Ask(call, revision) in policy then next else Failed(AccessDenied))
  {
    match Enforce(policy, Ask(call, revision), () => next)
    case Ok(pc) => GoTo(pc)
    case Err(_) => GoTo(Failed(AccessDenied))
  }

  /** The file that a published path leads to. */
  function PublishedAt(s: State, id: Id): Option<Content> {
    if id in s.published && s.published[id] in s.files then Some(s.files[s.published[id]]) else None
  }

  /** `load`: read the published file and refuse another report version. */
  function Load(file: Option<Content>, build: Build): Result<Envelope, Failure> {
    match file
    case None => Err(Missing)
    case Some(Partial) => Err(Corrupt)
    case Some(Whole(envelope)) =>
      if envelope.reportVersion != build.reportVersion then Err(WrongVersion) else Ok(envelope)
  }

  /** After `run_in_domain` has returned: a protected caller is asked again. */
  function Deliver(call: Call, bytes: Bytes, outcome: Result<Envelope, Failure>): Pc {
    match outcome
    case Err(error) => Failed(error)
    case Ok(envelope) => if call.caller.Protected? then AskingBaseAgain(bytes, envelope) else Done(bytes, envelope)
  }

  predicate AsksPolicy(pc: Pc) {
    pc.AskingBase? || pc.AskingHead? || pc.AskingBaseAgain? || pc.AskingHeadAgain?
  }

  predicate AtAccess(pc: Pc) { pc.Arrived? || AsksPolicy(pc) }
  predicate AtLookup(pc: Pc) { pc.Resolving? || pc.Looking? || pc.LoadingHit? || pc.Locking? }
  predicate AtCheck(pc: Pc) { pc.Staging? || pc.Copying? || pc.Checking? }
  predicate AtPublish(pc: Pc) { pc.Writing? || pc.WritingRest? || pc.Linking? || pc.Reloading? || pc.Cleaning? }

  /** `protected`: the repository must match, and both sides must be readable. */
  function AccessStep(policy: Policy, call: Call, pc: Pc): Effect
    requires AtAccess(pc) && (AsksPolicy(pc) ==> call.caller.Protected?)
  {
    match pc
    case Arrived =>
      if call.caller.Direct? then GoTo(Resolving)
      else if call.caller.repository != call.repository then GoTo(Failed(AccessDenied))
      else GoTo(AskingBase)
    case AskingBase => AskThen(policy, call, call.query.base, AskingHead)
    case AskingHead => AskThen(policy, call, call.query.head, Resolving)
    case AskingBaseAgain(bytes, envelope) => AskThen(policy, call, call.query.base, AskingHeadAgain(bytes, envelope))
    case AskingHeadAgain(bytes, envelope) => AskThen(policy, call, call.query.head, Done(bytes, envelope))
  }

  /** `run_in_domain`, up to the permit: thresholds, map bytes, cache, try-lock. */
  function LookupStep(s: State, call: Call, pc: Pc): Effect
    requires AtLookup(pc)
  {
    match pc
    case Resolving =>
      if ResolveThresholds(call.query).Err? then GoTo(Failed(BadInput))
      else if call.mapPath !in s.maps then GoTo(Failed(Unavailable))
      else GoTo(Looking(s.maps[call.mapPath]))
    case Looking(bytes) => GoTo(if IdOf(call, bytes) in s.published then LoadingHit(bytes) else Locking(bytes))
    case LoadingHit(bytes) => GoTo(Deliver(call, bytes, Load(PublishedAt(s, IdOf(call, bytes)), call.build)))
    case Locking(bytes) =>
      if call.process in s.locks then GoTo(Failed(Busy)) else GoTo(Staging(bytes)).(lock := Taken)
  }

  /** The map copy in the staging directory of a request. */
  function StagedCopy(s: State, r: nat): Option<Bytes> {
    if r in s.staged then s.staged[r] else None
  }

  /** The staging directory, the copied map and the check on that copy. */
  function CheckStep(check: Checker, copy: Option<Bytes>, clock: nat, call: Call, pc: Pc): Effect
    requires AtCheck(pc)
  {
    match pc
    case Staging(bytes) => GoTo(Copying(bytes)).(stage := Put(None))
    case Copying(bytes) => GoTo(Checking(bytes)).(stage := Put(Some(bytes)))
    case Checking(bytes) =>
      match copy
      case None => GoTo(Cleaning(bytes, Err(CheckFailed)))
      case Some(map_) =>
        match check(InputOf(call, map_))
        case None => GoTo(Cleaning(bytes, Err(CheckFailed)))
        case Some(report) => GoTo(Writing(bytes, EnvelopeOf(call, bytes, report, clock)))
  }

  /** The write in two parts, the no-clobber link, the reload and the clean-up. */
  function PublishStep(s: State, call: Call, pc: Pc): Effect
    requires AtPublish(pc)
  {
    match pc
    case Writing(bytes, envelope) => GoTo(WritingRest(bytes, envelope)).(write := Some(Partial))
    case WritingRest(bytes, envelope) => GoTo(Linking(bytes)).(write := Some(Whole(envelope)))
    case Linking(bytes) => GoTo(Reloading(bytes)).(link := Some(IdOf(call, bytes)))
    case Reloading(bytes) => GoTo(Cleaning(bytes, Load(PublishedAt(s, IdOf(call, bytes)), call.build)))
    case Cleaning(bytes, outcome) => GoTo(Deliver(call, bytes, outcome)).(stage := Removed, lock := Returned)
  }

  /** The next step of request r, when nothing goes wrong around it. */
  function Advance(check: Checker, s: State, r: nat): Effect
    requires r in s.jobs && (AsksPolicy(s.jobs[r].pc) ==> s.jobs[r].call.caller.Protected?)
  {
    var call, pc := s.jobs[r].call, s.jobs[r].pc;
    if AtAccess(pc) then AccessStep(s.policy, call, pc)
    else if AtLookup(pc) then LookupStep(s, call, pc)
    else if AtCheck(pc) then CheckStep(check, StagedCopy(s, r), s.clock, call, pc)
    else if AtPublish(pc) then PublishStep(s, call, pc)
    else GoTo(pc)
  }

  /** A git or file operation fails. Once the staging directory exists the
      failure goes through the clean-up; before, it does not. */
  function Fault(pc: Pc): Effect {
    if pc.Resolving? then GoTo(Failed(Unavailable))
    else if pc.Looking? || pc.LoadingHit? then GoTo(Failed(IoFailed))
    else if pc.Staging? then GoTo(Failed(IoFailed)).(lock := Returned)
    else if pc.Checking? then GoTo(Cleaning(pc.bytes, Err(CheckFailed)))
    else if pc.Copying? || pc.Writing? || pc.WritingRest? || pc.Linking? || pc.Reloading? then
      GoTo(Cleaning(pc.bytes, Err(IoFailed)))
    else GoTo(pc)
  }

  /** Carries out a step of request r. A link never replaces an existing one. */
  function Perform(s: State, r: nat, e: Effect): State
    requires r in s.jobs
  {
    var process := s.jobs[r].call.process;
    s.(jobs := s.jobs[r := s.jobs[r].(pc := e.next)],
       files := if e.write.Some? then s.files[r := e.write.value] else s.files,
       staged := match e.stage
                 case Untouched => s.staged
                 case Put(copy) => s.staged[r := copy]
                 case Removed => s.staged - {r},
       published := if e.link.Some? && e.link.value !in s.published then s.published[e.link.value := r] else s.published,
       locks := match e.lock
                case Unchanged => s.locks
                case Taken => s.locks[process := r]
                case Returned => s.locks - {process})
  }

  predicate Ended(pc: Pc) { pc.Done? || pc.Failed? }

  /** A process dies: its requests stop where they are, its lock goes with it,
      and whatever it had written stays on disk. */
  function Crash(s: State, process: nat): State {
    s.(jobs := map r | r in s.jobs ::
                 if s.jobs[r].call.process == process && !Ended(s.jobs[r].pc)
                 then s.jobs[r].(pc := Failed(Crashed)) else s.jobs[r],
       locks := s.locks - {process})
  }

  datatype Event =
    | Arrive(request: nat, call: Call)
    | Step(request: nat)
    | Break(request: nat)
    | Die(process: nat)
    | SetPolicy(policy: Policy)
    | SetMap(path: string, bytes: Option<Bytes>)
    | Tick

  predicate Enabled(s: State, e: Event) {
    match e
    case Arrive(r, _) => r !in s.jobs && r !in s.files && r !in s.staged
    case Step(r) => r in s.jobs && (AsksPolicy(s.jobs[r].pc) ==> s.jobs[r].call.caller.Protected?)
    case Break(r) => r in s.jobs
    case _ => true
  }

  function Apply(check: Checker, s: State, e: Event): State
    requires Enabled(s, e)
  {
    match e
    case Arrive(r, call) => s.(jobs := s.jobs[r := Job(call, Arrived)])
    case Step(r) => Perform(s, r, Advance(check, s, r))
    case Break(r) => Perform(s, r, Fault(s.jobs[r].pc))
    case Die(process) => Crash(s, process)
    case SetPolicy(policy) => s.(policy := policy)
    case SetMap(path, None) => s.(maps := s.maps - {path})
    case SetMap(path, Some(bytes)) => s.(maps := s.maps[path := bytes])
    case Tick => s.(clock := s.clock + 1)
  }

  /** Nothing has run yet: an empty cache, no requests, any policy, maps and clock. */
  predicate Initial(s: State) {
    s.jobs == map[] && s.staged == map[] && s.files == map[] && s.published == map[] && s.locks == map[]
  }

  ghost predicate Next(check: Checker, s: State, t: State) {
    exists e :: Enabled(s, e) && t == Apply(check, s, e)
  }

  /** A finite run from an initial state, every interleaving allowed. */
  ghost predicate IsRun(check: Checker, run: seq<State>) {
    && run != [] && Initial(run[0])
    && forall i :: 0 <= i < |run| - 1 ==> Next(check, run[i], run[i + 1])
  }
}
