/** What holds over whole runs of the comparison cache. */
module ComparisonRuns {
  import opened Wrappers
  import opened Access
  import opened ComparisonProtocol
  import opened ComparisonSafety

  lemma {:induction false} RunInv(check: Checker, run: seq<State>, i: nat)
    requires IsRun(check, run) && i < |run|
    ensures Inv(check, run[i])
  {
    if i == 0 {
      InitialInv(check, run[0]);
    } else {
      hide Inv, Next;
      RunInv(check, run, i - 1);
      NextInv(check, run[i - 1], run[i]);
    }
  }

  lemma KeepsAll(s: State, t: State, u: State)
    requires Keeps(s, t) && Keeps(t, u)
    ensures Keeps(s, u)
  {
    hide PublishedAt;
  }

  lemma KeepsItself(s: State)
    ensures Keeps(s, s)
  {
    hide PublishedAt;
  }

  lemma {:induction false} RunKeeps(check: Checker, run: seq<State>, i: nat, j: nat)
    requires IsRun(check, run) && i <= j < |run|
    ensures Keeps(run[i], run[j])
    decreases j
  {
    hide Inv, Next, Keeps, Initial;
    if i == j {
      KeepsItself(run[i]);
    } else {
      RunKeeps(check, run, i, j - 1);
      RunInv(check, run, j - 1);
      NextInv(check, run[j - 1], run[j]);
      KeepsAll(run[i], run[j - 1], run[j]);
    }
  }

  /** Once published, a comparison is whole, faithful to its key, and never
      changes again, whatever else runs, fails or crashes. */
  lemma PublishedForever(check: Checker, run: seq<State>, i: nat, j: nat, id: Id)
    requires IsRun(check, run) && i <= j < |run| && id in run[i].published
    ensures id in run[j].published && PublishedAt(run[j], id) == PublishedAt(run[i], id)
    ensures WholeAndFaithful(check, id.key, PublishedAt(run[j], id))
  {
    hide WholeAndFaithful, PublishedAt, JobsOk, LinksOk, LocksOk, Next;
    RunKeeps(check, run, i, j);
    RunInv(check, run, j);
  }

  /** A request has succeeded at some point of a run. */
  ghost predicate Succeeded(run: seq<State>, i: nat, r: nat, bytes: Bytes, envelope: Envelope) {
    i < |run| && r in run[i].jobs && run[i].jobs[r].pc == Done(bytes, envelope)
  }

  lemma SuccessIsPublished(check: Checker, run: seq<State>, i: nat, r: nat, bytes: Bytes, envelope: Envelope)
    requires IsRun(check, run) && Succeeded(run, i, r, bytes, envelope)
    ensures var id := IdOf(run[i].jobs[r].call, bytes);
            id in run[i].published && PublishedAt(run[i], id) == Some(Whole(envelope))
  {
    RunInv(check, run, i);
    assert JobOk(check, run[i], r);
    hide IdOf, Faithful, Next;
  }

  /** All successes with the same key return the same envelope, creation time
      included: the one that was published first. */
  lemma SameKeySameEnvelope(check: Checker, run: seq<State>, i: nat, j: nat, q: nat, r: nat,
                            bytesQ: Bytes, bytesR: Bytes, envelopeQ: Envelope, envelopeR: Envelope)
    requires IsRun(check, run) && i <= j
    requires Succeeded(run, i, q, bytesQ, envelopeQ) && Succeeded(run, j, r, bytesR, envelopeR)
    requires IdOf(run[i].jobs[q].call, bytesQ) == IdOf(run[j].jobs[r].call, bytesR)
    ensures envelopeQ == envelopeR
  {
    hide PublishedAt, IdOf, WholeAndFaithful, Next;
    SuccessIsPublished(check, run, i, q, bytesQ, envelopeQ);
    SuccessIsPublished(check, run, j, r, bytesR, envelopeR);
    PublishedForever(check, run, i, j, IdOf(run[i].jobs[q].call, bytesQ));
  }

  /** The returned report is the check of the very map bytes that the request
      read and whose hash its key and envelope carry. */
  lemma ReportOfHashedBytes(check: Checker, run: seq<State>, i: nat, r: nat, bytes: Bytes, envelope: Envelope)
    requires IsRun(check, run) && Succeeded(run, i, r, bytes, envelope)
    ensures var call := run[i].jobs[r].call;
            && check(InputOf(call, bytes)) == Some(envelope.report)
            && envelope.id == IdOf(call, bytes) && envelope.mapHash == Sha256OfMap(bytes)
            && envelope.repository == call.repository
            && envelope.base == call.query.base && envelope.head == call.query.head
            && envelope.reportVersion == call.build.reportVersion
  {
    SuccessIsPublished(check, run, i, r, bytes, envelope);
    RunInv(check, run, i);
    assert JobOk(check, run[i], r);
    hide LinksOk, LocksOk, JobsOk, Next;
  }

  /** No request ever reads a missing or half-written comparison. */
  lemma NoPartialRead(check: Checker, run: seq<State>, i: nat, r: nat)
    requires IsRun(check, run) && i < |run| && r in run[i].jobs && run[i].jobs[r].pc.Failed?
    ensures run[i].jobs[r].pc.error != Corrupt && run[i].jobs[r].pc.error != Missing
  {
    RunInv(check, run, i);
    assert JobOk(check, run[i], r);
    hide LinksOk, LocksOk, PublishedOk, Next;
  }

  /** At most one request of a process computes at a time. */
  lemma OneComputation(check: Checker, run: seq<State>, i: nat, q: nat, r: nat)
    requires IsRun(check, run) && i < |run| && q in run[i].jobs && r in run[i].jobs
    requires HoldsLock(run[i].jobs[q].pc) && HoldsLock(run[i].jobs[r].pc)
    requires run[i].jobs[q].call.process == run[i].jobs[r].call.process
    ensures q == r
  {
    RunInv(check, run, i);
    hide LinksOk, JobsOk, PublishedOk, Next, HoldsLock;
  }

  function DomainOf(call: Call): Option<string> {
    if call.caller.Protected? then Some(call.caller.domain) else None
  }

  /** A returned envelope was created by a request of the same access domain and
      repository: domains never share, and neither shares with direct calls. */
  lemma DomainsNeverShare(check: Checker, run: seq<State>, i: nat, r: nat, bytes: Bytes, envelope: Envelope)
    requires IsRun(check, run) && Succeeded(run, i, r, bytes, envelope)
    ensures var s := run[i];
            exists c :: c in s.jobs && c in s.files && s.files[c] == Whole(envelope)
              && DomainOf(s.jobs[c].call) == DomainOf(s.jobs[r].call)
              && s.jobs[c].call.repository == s.jobs[r].call.repository
  {
    SuccessIsPublished(check, run, i, r, bytes, envelope);
    RunInv(check, run, i);
    var s := run[i];
    var id := IdOf(s.jobs[r].call, bytes);
    var c := s.published[id];
    assert CouldAsk(s.jobs[c].call, id);
    hide PublishedOk, LinksOk, LocksOk, JobsOk, Next;
    assert c in s.jobs && c in s.files && s.files[c] == Whole(envelope);
  }

  // ----- Authority -----

  /** The policy lets the caller's principal read the revision of the call's repository
      in the caller's domain. */
  predicate MayRead(call: Call, revision: string, policy: Policy) {
    call.caller.Protected?
    && Request(call.caller.principal, Read, Resource(call.caller.domain, call.repository, Some(revision))) in policy
  }

  /** How far a request behind the boundary has come; -1 once it has failed. */
  function Stage(s: State, r: nat): int {
    if r !in s.jobs then 0 else
      var pc := s.jobs[r].pc;
      if pc.Arrived? then 0 else if pc.AskingBase? then 1 else if pc.AskingHead? then 2
      else if pc.AskingBaseAgain? then 4 else if pc.AskingHeadAgain? then 5
      else if pc.Done? then 6 else if pc.Failed? then -1 else 3
  }

  /** The policy question that lets a request leave this stage. */
  ghost predicate MayLeave(policy: Policy, call: Call, stage: int)
    requires call.caller.Protected?
  {
    && (stage == 0 ==> call.caller.repository == call.repository)
    && (stage == 1 || stage == 4 ==> Ask(call, call.query.base) in policy)
    && (stage == 2 || stage == 5 ==> Ask(call, call.query.head) in policy)
  }

  /** The result a request carries through the second round of questions. */
  function Carried(s: State, r: nat): Option<(Bytes, Envelope)> {
    if r !in s.jobs then None else
      match s.jobs[r].pc
      case AskingBaseAgain(bytes, envelope) => Some((bytes, envelope))
      case AskingHeadAgain(bytes, envelope) => Some((bytes, envelope))
      case Done(bytes, envelope) => Some((bytes, envelope))
      case _ => None
  }

  /** How one event may move a request that has not failed: it stays, or moves on
      by exactly one stage, and only with the policy's leave at that moment. */
  ghost predicate StageStep(s: State, t: State, r: nat)
    requires r in t.jobs && t.jobs[r].call.caller.Protected?
  {
    var m, n := Stage(s, r), Stage(t, r);
    && (n >= 0 ==> m >= 0)
    && (n >= 0 ==> m == n || (m == n - 1 && MayLeave(s.policy, t.jobs[r].call, m)))
    && (n >= 0 && m >= 4 ==> Carried(s, r) == Carried(t, r))
  }

  lemma PerformedJob(s: State, r: nat, e: Effect)
    requires r in s.jobs
    ensures r in Perform(s, r, e).jobs && Perform(s, r, e).jobs[r] == Job(s.jobs[r].call, e.next)
  {
  }

  lemma AdvanceAccessStage(check: Checker, s: State, r: nat)
    requires r in s.jobs && s.jobs[r].call.caller.Protected? && AtAccess(s.jobs[r].pc)
    ensures r in Perform(s, r, Advance(check, s, r)).jobs && StageStep(s, Perform(s, r, Advance(check, s, r)), r)
  {
    PerformedJob(s, r, Advance(check, s, r));
    hide Perform, LookupStep, CheckStep, PublishStep, Ask;
  }

  lemma AdvanceLookupStage(check: Checker, s: State, r: nat)
    requires r in s.jobs && s.jobs[r].call.caller.Protected? && AtLookup(s.jobs[r].pc)
    ensures r in Perform(s, r, Advance(check, s, r)).jobs && StageStep(s, Perform(s, r, Advance(check, s, r)), r)
  {
    PerformedJob(s, r, Advance(check, s, r));
    hide Perform, AccessStep, CheckStep, PublishStep, Load, IdOf;
  }

  lemma AdvanceCheckStage(check: Checker, s: State, r: nat)
    requires r in s.jobs && s.jobs[r].call.caller.Protected? && AtCheck(s.jobs[r].pc)
    ensures r in Perform(s, r, Advance(check, s, r)).jobs && StageStep(s, Perform(s, r, Advance(check, s, r)), r)
  {
    PerformedJob(s, r, Advance(check, s, r));
    hide Perform, AccessStep, LookupStep, PublishStep, InputOf, EnvelopeOf;
  }

  lemma AdvancePublishStage(check: Checker, s: State, r: nat)
    requires r in s.jobs && s.jobs[r].call.caller.Protected?
    requires var pc := s.jobs[r].pc; !AtAccess(pc) && !AtLookup(pc) && !AtCheck(pc)
    ensures r in Perform(s, r, Advance(check, s, r)).jobs && StageStep(s, Perform(s, r, Advance(check, s, r)), r)
  {
    PerformedJob(s, r, Advance(check, s, r));
    hide Perform, AccessStep, LookupStep, CheckStep, Load, IdOf;
  }

  lemma AdvanceStage(check: Checker, s: State, r: nat)
    requires r in s.jobs && s.jobs[r].call.caller.Protected?
    ensures r in Perform(s, r, Advance(check, s, r)).jobs && StageStep(s, Perform(s, r, Advance(check, s, r)), r)
  {
    var pc := s.jobs[r].pc;
    hide Perform, Advance, StageStep;
    if AtAccess(pc) {
      AdvanceAccessStage(check, s, r);
    } else if AtLookup(pc) {
      AdvanceLookupStage(check, s, r);
    } else if AtCheck(pc) {
      AdvanceCheckStage(check, s, r);
    } else {
      AdvancePublishStage(check, s, r);
    }
  }

  lemma FaultStage(s: State, r: nat)
    requires r in s.jobs && s.jobs[r].call.caller.Protected?
    ensures StageStep(s, Perform(s, r, Fault(s.jobs[r].pc)), r)
  {
    var e := Fault(s.jobs[r].pc);
    assert Perform(s, r, e).jobs[r] == Job(s.jobs[r].call, e.next);
    hide Perform;
  }

  lemma NextStage(check: Checker, s: State, t: State, r: nat)
    requires Inv(check, s) && Next(check, s, t) && r in t.jobs && t.jobs[r].call.caller.Protected?
    ensures StageStep(s, t, r)
  {
    hide Apply, Enabled, Inv, Quiet, StageStep;
    var e :| Enabled(s, e) && t == Apply(check, s, e);
    if (e.Step? || e.Break?) && e.request == r {
      OwnEventStage(check, s, e);
    } else {
      OtherEventJob(check, s, e, r);
      SameJobStage(s, t, r);
    }
  }

  lemma OwnEventStage(check: Checker, s: State, e: Event)
    requires Enabled(s, e) && (e.Step? || e.Break?)
    requires e.request in Apply(check, s, e).jobs && Apply(check, s, e).jobs[e.request].call.caller.Protected?
    ensures StageStep(s, Apply(check, s, e), e.request)
  {
    hide StageStep, Advance, Fault;
    if e.Step? {
      AdvanceStage(check, s, e.request);
    } else {
      FaultStage(s, e.request);
    }
  }

  /** Other requests' steps leave a request alone; a crash may fail it, and it may
      only just have arrived. */
  ghost predicate LeftAlone(s: State, t: State, r: nat)
    requires r in t.jobs
  {
    if r in s.jobs then t.jobs[r] == s.jobs[r] || t.jobs[r] == s.jobs[r].(pc := Failed(Crashed)) else t.jobs[r].pc == Arrived
  }

  lemma OtherEventJob(check: Checker, s: State, e: Event, r: nat)
    requires Inv(check, s) && Enabled(s, e) && !((e.Step? || e.Break?) && e.request == r)
    requires r in Apply(check, s, e).jobs
    ensures LeftAlone(s, Apply(check, s, e), r)
  {
    hide Inv, Advance, Fault;
  }

  lemma SameJobStage(s: State, t: State, r: nat)
    requires r in t.jobs && t.jobs[r].call.caller.Protected? && LeftAlone(s, t, r)
    ensures StageStep(s, t, r)
  {
    hide Ask;
  }

  lemma RunStage(check: Checker, run: seq<State>, i: nat, r: nat)
    requires IsRun(check, run) && i + 1 < |run| && r in run[i + 1].jobs && run[i + 1].jobs[r].call.caller.Protected?
    ensures StageStep(run[i], run[i + 1], r)
  {
    hide Inv, Next, StageStep;
    RunInv(check, run, i);
    NextStage(check, run[i], run[i + 1], r);
  }

  /** Within a run a request keeps the call it arrived with. */
  ghost predicate Calls(run: seq<State>, r: nat, call: Call) {
    forall i :: 0 <= i < |run| && r in run[i].jobs ==> run[i].jobs[r].call == call
  }

  lemma RunCalls(check: Checker, run: seq<State>, n: nat, r: nat)
    requires IsRun(check, run) && n < |run| && r in run[n].jobs
    ensures Calls(run[..n + 1], r, run[n].jobs[r].call)
  {
    forall i | 0 <= i <= n && r in run[i].jobs ensures run[i].jobs[r].call == run[n].jobs[r].call {
      RunKeeps(check, run, i, n);
    }
    hide Inv, Next;
  }

  /** The moment at which a request left stage k, with the policy's leave. */
  ghost predicate LeavesAt(run: seq<State>, n: nat, r: nat, call: Call, k: int, i: nat)
    requires call.caller.Protected?
  {
    && i < n < |run| && Stage(run[i], r) == k && MayLeave(run[i].policy, call, k)
    && (forall j :: 0 <= j <= i ==> 0 <= Stage(run[j], r) <= k)
    && (forall j :: i < j <= n ==> Stage(run[j], r) > k)
  }

  /** A request that has come beyond stage k left it at one moment, never to be
      at it again. */
  lemma {:induction false} LeftStage(check: Checker, run: seq<State>, n: nat, r: nat, call: Call, k: int) returns (i: nat)
    requires IsRun(check, run) && n < |run| && Calls(run[..n + 1], r, call) && call.caller.Protected?
    requires 0 <= k < Stage(run[n], r)
    ensures LeavesAt(run, n, r, call, k, i)
  {
    hide Next, MayLeave;
    assert n > 0;
    assert run[..n + 1][n] == run[n];
    RunStage(check, run, n - 1, r);
    if Stage(run[n - 1], r) == k {
      i := n - 1;
      StagesBefore(check, run, i, r, call);
    } else {
      ShorterCalls(run, n, r, call);
      i := LeftStage(check, run, n - 1, r, call, k);
    }
  }

  lemma ShorterCalls(run: seq<State>, n: nat, r: nat, call: Call)
    requires 0 < n < |run| && Calls(run[..n + 1], r, call)
    ensures Calls(run[..n], r, call)
  {
    assert run[..n] == run[..n + 1][..n];
  }

  /** Up to a stage there was no failure and no later stage. */
  lemma {:induction false} StagesBefore(check: Checker, run: seq<State>, n: nat, r: nat, call: Call)
    requires IsRun(check, run) && n < |run| && call.caller.Protected?
    requires forall j :: 0 <= j <= n && r in run[j].jobs ==> run[j].jobs[r].call == call
    requires Stage(run[n], r) >= 0
    ensures forall j :: 0 <= j <= n ==> 0 <= Stage(run[j], r) <= Stage(run[n], r)
  {
    hide Next, MayLeave;
    if n > 0 {
      if r in run[n].jobs {
        RunStage(check, run, n - 1, r);
      } else {
        NotYet(check, run, n - 1, n, r);
      }
      StagesBefore(check, run, n - 1, r, call);
    }
  }

  lemma NotYet(check: Checker, run: seq<State>, i: nat, j: nat, r: nat)
    requires IsRun(check, run) && i <= j < |run| && r !in run[j].jobs
    ensures r !in run[i].jobs
  {
    RunKeeps(check, run, i, j);
    hide Next, PublishedAt;
  }

  /** The result carried at the end was carried ever since the first question
      of the second round. */
  lemma {:induction false} CarriedSince(check: Checker, run: seq<State>, i: nat, n: nat, r: nat, call: Call)
    requires IsRun(check, run) && i <= n < |run| && call.caller.Protected?
    requires forall j :: 0 <= j <= n && r in run[j].jobs ==> run[j].jobs[r].call == call
    requires forall j :: i <= j <= n ==> Stage(run[j], r) >= 4
    ensures Carried(run[i], r) == Carried(run[n], r)
    decreases n
  {
    hide Next, MayLeave, Carried;
    if i < n {
      assert Stage(run[n - 1], r) >= 4 && Stage(run[n], r) >= 4;
      RunStage(check, run, n - 1, r);
      CarriedSince(check, run, i, n - 1, r, call);
    }
  }

  /** Delivery needs current authority twice. A protected request that succeeds
      named the repository it was given; the policy of moment i allowed reading
      its base and that of moment j its head, with nothing of the cache touched
      up to j; and once the result existed, the policy of moment k allowed the
      base again, and that of moment l the head again. */
  lemma Authority(check: Checker, run: seq<State>, n: nat, r: nat, bytes: Bytes, envelope: Envelope)
    returns (i: nat, j: nat, k: nat, l: nat)
    requires IsRun(check, run) && Succeeded(run, n, r, bytes, envelope)
    requires run[n].jobs[r].call.caller.Protected?
    ensures var call := run[n].jobs[r].call;
            && call.caller.repository == call.repository
            && i < j < k < l < n
            && MayRead(call, call.query.base, run[i].policy) && MayRead(call, call.query.head, run[j].policy)
            && (forall m :: 0 <= m <= j && r in run[m].jobs ==>
                  run[m].jobs[r].pc.Arrived? || run[m].jobs[r].pc.AskingBase? || run[m].jobs[r].pc.AskingHead?)
            && r in run[k].jobs && run[k].jobs[r].pc == AskingBaseAgain(bytes, envelope)
            && r in run[l].jobs && run[l].jobs[r].pc == AskingHeadAgain(bytes, envelope)
            && MayRead(call, call.query.base, run[k].policy) && MayRead(call, call.query.head, run[l].policy)
  {
    hide Next, IdOf;
    var call := run[n].jobs[r].call;
    RunCalls(check, run, n, r);
    var arrived := LeftStage(check, run, n, r, call, 0);
    i := LeftStage(check, run, n, r, call, 1);
    j := LeftStage(check, run, n, r, call, 2);
    k := LeftStage(check, run, n, r, call, 4);
    l := LeftStage(check, run, n, r, call, 5);
    forall m | 0 <= m <= n && r in run[m].jobs ensures run[m].jobs[r].call == call {
      assert run[..n + 1][m] == run[m];
    }
    CarriedSince(check, run, k, n, r, call);
    CarriedSince(check, run, l, n, r, call);
  }
}
