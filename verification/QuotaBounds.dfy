/** What the ledger's admissions guarantee: no bucket is charged above its allocation, and allocations
    stay within the capacity of the instance; each under the conditions that are its exact price. */
module QuotaBounds {
  import opened Sums
  import opened Quota
  import opened QuotaSystem
  import opened QuotaOrder

  // ----- No bucket is charged above its allocation ------------------------------------------

  /** Writes settle at most what they held: they extended their claim to what they stored. */
  predicate Paid(due: seq<Due>) {
    forall d :: d in due ==> d.bucket != "" && (d.ObjectDue? || d.PartDue? ==> d.stored <= d.held)
  }

  lemma StepPaid(s: State, e: Event)
    requires Enabled(s, e) && Paid(s.due)
    ensures Paid(Step(s, e).due)
  {
    hide Sum, UploadBytes, PartsOf;
    if Commits(e) {
      CommitStep(s, e);
    }
  }

  /** Tracking a bucket and completing an upload ask for no admission. There is room for the one when what
      is already charged fits the allocation, for the other when what the object adds fits beside the parts
      that are counted as pending. Every other settlement finds its room in its own claim. */
  predicate HasRoom(s: State, e: Event) {
    if !e.Settle? || e.i >= |s.due| then true
    else
      var entry := EntryFor(s.tally, s.due[e.i].bucket);
      match s.due[e.i]
      case TrackDue(_, quota) => quota == 0 || entry.Charged() <= quota
      case CompletionDue(_, stored, replaced, released) => CompletionFits(entry, stored, replaced, released)
      case _ => true
  }

  /** A completed upload has room in its parts, when they are recorded and hold what the object holds. */
  lemma PartsMakeRoom(e: Entry, stored: nat, replaced: nat, released: nat)
    requires Fits(e) && stored <= released <= e.pending
    ensures CompletionFits(e, stored, replaced, released)
  {
  }

  /** Settling in one section is what keeps the charge under the allocation. */
  lemma RecordFits(t: Tally, d: Due)
    requires WithinQuotas(t) && (d.ObjectDue? || d.PartDue? || d.DeletionDue? || d.AbortDue?)
    requires Out(d, Reserved) <= EntryFor(t, d.bucket).reserved
    requires d.ObjectDue? || d.PartDue? ==> d.stored <= d.held
    ensures WithinQuotas(Record(t, d))
  {
    hide WithinQuotas;
    EntryFits(t, d.bucket);
    OneFits(t, d.bucket, EntryFor(Record(t, d), d.bucket));
  }

  lemma SettleFits(s: State, i: nat)
    requires i < |s.due| && WithinQuotas(s.tally) && Paid(s.due) && Drift(s, Reserved, s.due[i].bucket) == 0
    ensures WithinQuotas(Step(s, Settle(i)).tally) <==> HasRoom(s, Settle(i))
  {
    hide WithinQuotas, Drift, Without, CompletionFits;
    var d := s.due[i];
    assert d in s.due;
    SettledHoldIsReserved(s, i);
    match d
    case ForgetDue(bucket) => FewerFit(s.tally, bucket);
    case TrackDue(bucket, quota) => TrackNeedsRoom(s.tally, bucket, quota);
    case CompletionDue(bucket, stored, replaced, released) =>
      CompletionNeedsParts(s.tally, bucket, stored, replaced, released);
    case _ => RecordFits(s.tally, d);
  }

  lemma ClaimFits(t: Tally, bucket: string, wanted: nat)
    requires WithinQuotas(t)
    ensures WithinQuotas(Claim(t, bucket, wanted))
  {
    hide WithinQuotas;
    EntryFits(t, bucket);
    OneFits(t, bucket, EntryFor(Claim(t, bucket, wanted), bucket));
  }

  lemma GiveBackFits(t: Tally, bucket: string, bytes: nat)
    requires WithinQuotas(t)
    ensures WithinQuotas(GiveBack(t, bucket, bytes))
  {
    hide WithinQuotas;
    EntryFits(t, bucket);
    OneFits(t, bucket, EntryFor(GiveBack(t, bucket, bytes), bucket));
  }

  lemma SetQuotaFits(t: Tally, allocatable: nat, bucket: string, quota: nat)
    requires WithinQuotas(t)
    ensures WithinQuotas(SetQuota(t, allocatable, bucket, quota))
  {
    hide WithinQuotas, Allocated;
    EntryFits(t, bucket);
    OneFits(t, bucket, EntryFor(t, bucket));
    OneFits(t, bucket, EntryFor(t, bucket).(quota := quota));
  }

  /** While the reserved figure is true, a step keeps every bucket within its allocation exactly when it
      has room. */
  lemma StepWithinQuotas(s: State, e: Event)
    requires Enabled(s, e) && WithinQuotas(s.tally) && Paid(s.due)
    requires forall bucket :: Drift(s, Reserved, bucket) == 0
    ensures WithinQuotas(Step(s, e).tally) <==> HasRoom(s, e)
  {
    hide WithinQuotas, Drift, Paid, CompletionFits, Claim, GiveBack, SetQuota, AdmitsClaim, Owed, Committed, Record;
    match e
    case Settle(i) => SettleFits(s, i);
    case Allocate(bucket, quota) => SetQuotaFits(s.tally, s.allocatable, bucket, quota);
    case Extend(claim, bucket, bytes) =>
      if bytes > HeldBytes(s, claim) {
        ClaimFits(s.tally, bucket, bytes - HeldBytes(s, claim));
      }
    case Release(claim) =>
      if claim in s.claims {
        GiveBackFits(s.tally, s.claims[claim].bucket, s.claims[claim].bytes);
      }
    case Move(to, _) =>
      if to in s.claims {
        GiveBackFits(s.tally, s.claims[to].bucket, s.claims[to].bytes);
      }
    case Admit(_, _) =>
    case _ => CommitStep(s, e);
  }

  /** Forgetting only unclaimed buckets keeps the reserved figure true, in whatever order settlements are
      recorded. */
  lemma UnclaimedKeeps(s: State, e: Event)
    requires Enabled(s, e) && ForgetsUnclaimed(s, e)
    requires forall bucket :: Drift(s, Reserved, bucket) == 0
    ensures forall bucket :: Drift(Step(s, e), Reserved, bucket) == 0
  {
    hide Drift, Step, Saturated;
    forall bucket ensures Drift(Step(s, e), Reserved, bucket) == 0 {
      StepConserves(s, e, Reserved, bucket);
      ReservedNeverSaturates(s, e, bucket);
    }
  }

  ghost predicate AlwaysForgetsUnclaimed(s: State, events: seq<Event>)
    requires IsRun(s, events)
    decreases |events|
  {
    events == [] || (ForgetsUnclaimed(s, events[0]) && AlwaysForgetsUnclaimed(Step(s, events[0]), events[1..]))
  }

  ghost predicate AlwaysHasRoom(s: State, events: seq<Event>)
    requires IsRun(s, events)
    decreases |events|
  {
    events == [] || (HasRoom(s, events[0]) && AlwaysHasRoom(Step(s, events[0]), events[1..]))
  }

  ghost predicate AlwaysWithinQuotas(s: State, events: seq<Event>)
    requires IsRun(s, events)
    decreases |events|
  {
    WithinQuotas(s.tally) && (events == [] || AlwaysWithinQuotas(Step(s, events[0]), events[1..]))
  }

  /** A writer is admitted only into space that is really there, whatever the other writers do: at every
      point of a run no bucket is charged above its allocation, exactly when every bucket tracked and
      every upload completed along it has room. */
  lemma {:induction false} RunWithinQuotas(s: State, events: seq<Event>)
    requires IsRun(s, events) && AlwaysForgetsUnclaimed(s, events)
    requires WithinQuotas(s.tally) && Paid(s.due) && forall bucket :: Drift(s, Reserved, bucket) == 0
    ensures AlwaysWithinQuotas(s, events) <==> AlwaysHasRoom(s, events)
    decreases |events|
  {
    hide WithinQuotas, Paid, HasRoom, ForgetsUnclaimed, Step, Enabled, Drift;
    if events != [] {
      StepPaid(s, events[0]);
      UnclaimedKeeps(s, events[0]);
      StepWithinQuotas(s, events[0]);
      if HasRoom(s, events[0]) {
        RunWithinQuotas(Step(s, events[0]), events[1..]);
      } else {
        assert !AlwaysWithinQuotas(Step(s, events[0]), events[1..]);
      }
    }
  }

  // ----- Allocations and the capacity of the instance ------------------------------------------

  ghost predicate WithinCapacity(s: State) {
    && "" !in s.tally
    && (s.allocatable != 0 ==> Sum(s.tally, QuotaOf) <= s.allocatable)
  }

  lemma QuotaPut(t: Tally, bucket: string, e: Entry)
    ensures Sum(t[bucket := e], QuotaOf) + EntryFor(t, bucket).quota == Sum(t, QuotaOf) + e.quota
    ensures Sum(t[bucket := e], QuotaOf) == Allocated(t, bucket) + e.quota
  {
    SumPut(t, QuotaOf, bucket, e);
  }

  lemma SameQuotas(t: Tally, bucket: string, e: Entry)
    requires e.quota == EntryFor(t, bucket).quota
    ensures Sum(t[bucket := e], QuotaOf) == Sum(t, QuotaOf)
  {
    QuotaPut(t, bucket, e);
  }

  /** The steps that hand out allocation. */
  predicate HandsOut(s: State, e: Event) {
    e.Allocate? || (e.Settle? && e.i < |s.due| && s.due[e.i].TrackDue?)
  }

  lemma RecordQuotas(t: Tally, d: Due)
    requires !d.TrackDue?
    ensures Sum(Record(t, d), QuotaOf) <= Sum(t, QuotaOf)
  {
    hide Sum;
    if d.ForgetDue? {
      SumPut(t, QuotaOf, d.bucket, NOTHING);
    } else {
      SameQuotas(t, d.bucket, EntryFor(Record(t, d), d.bucket));
    }
  }

  lemma ClaimQuotas(t: Tally, bucket: string, wanted: nat)
    ensures Sum(Claim(t, bucket, wanted), QuotaOf) == Sum(t, QuotaOf)
  {
    hide Sum;
    SameQuotas(t, bucket, EntryFor(Claim(t, bucket, wanted), bucket));
  }

  lemma GiveBackQuotas(t: Tally, bucket: string, bytes: nat)
    ensures Sum(GiveBack(t, bucket, bytes), QuotaOf) == Sum(t, QuotaOf)
  {
    hide Sum;
    if bucket in t {
      SameQuotas(t, bucket, EntryFor(GiveBack(t, bucket, bytes), bucket));
      assert t[bucket := t[bucket]] == t;
    }
  }

  /** Every other step leaves all allocations as they were, or drops one. */
  lemma OtherQuotas(s: State, e: Event)
    requires Enabled(s, e) && !HandsOut(s, e)
    ensures Sum(Step(s, e).tally, QuotaOf) <= Sum(s.tally, QuotaOf)
  {
    hide Sum, Claim, GiveBack, SetQuota, AdmitsClaim, Owed, Committed, Record;
    match e
    case Settle(i) => RecordQuotas(s.tally, s.due[i]);
    case Extend(claim, bucket, bytes) =>
      if bytes > HeldBytes(s, claim) {
        ClaimQuotas(s.tally, bucket, bytes - HeldBytes(s, claim));
      }
    case Release(claim) =>
      if claim in s.claims {
        GiveBackQuotas(s.tally, s.claims[claim].bucket, s.claims[claim].bytes);
      }
    case Move(to, _) =>
      if to in s.claims {
        GiveBackQuotas(s.tally, s.claims[to].bucket, s.claims[to].bytes);
      }
    case Admit(_, _) =>
    case _ => CommitStep(s, e);
  }

  /** No step makes an entry for a bucket without a name. */
  lemma NoNameless(s: State, e: Event)
    requires Enabled(s, e) && Paid(s.due) && "" !in s.tally
    ensures "" !in Step(s, e).tally && Step(s, e).allocatable == s.allocatable
  {
    if Commits(e) {
      hide Step, Owed, Committed, Paid, Enabled;
      CommitStep(s, e);
    } else if e.Settle? {
      hide Paid;
      NamedDue(s.due, e.i);
    } else if e.Move? {
      hide GiveBack, Paid;
      GiveBackKeys(s.tally, HeldBucket(s, e.to), HeldBytes(s, e.to));
    } else {
      hide Sum, SetQuotaVerdict, AdmitsClaim, AdmitsAllocation, Paid;
    }
  }

  function HeldBucket(s: State, claim: nat): string {
    if claim in s.claims then s.claims[claim].bucket else ""
  }

  lemma GiveBackKeys(t: Tally, bucket: string, bytes: nat)
    ensures GiveBack(t, bucket, bytes).Keys == t.Keys
  {
  }

  lemma NamedDue(due: seq<Due>, i: nat)
    requires Paid(due) && i < |due|
    ensures due[i].bucket != "" && (due[i].ObjectDue? || due[i].PartDue? ==> due[i].stored <= due[i].held)
  {
    assert due[i] in due;
  }

  lemma SetQuotaWithin(t: Tally, allocatable: nat, bucket: string, quota: nat)
    requires allocatable != 0 ==> Sum(t, QuotaOf) <= allocatable
    ensures allocatable != 0 ==> Sum(SetQuota(t, allocatable, bucket, quota), QuotaOf) <= allocatable
  {
    hide Sum, Allocated;
    QuotaPut(t, bucket, EntryFor(t, bucket).(quota := quota));
    QuotaPut(t, bucket, EntryFor(t, bucket));
  }

  /** Tracking is the one step that checks nothing: it keeps the sum of allocations within the capacity
      exactly when the other allocations leave room. Every other step keeps it. */
  lemma StepWithinCapacity(s: State, e: Event)
    requires Enabled(s, e) && Paid(s.due) && WithinCapacity(s)
    ensures WithinCapacity(Step(s, e)) <==> TracksWithRoom(s, e)
  {
    hide Sum, Allocated, SetQuota, Paid;
    NoNameless(s, e);
    if !HandsOut(s, e) {
      hide Step, Enabled;
      OtherQuotas(s, e);
    } else if e.Allocate? {
      SetQuotaWithin(s.tally, s.allocatable, e.bucket, e.quota);
    } else {
      QuotaPut(s.tally, s.due[e.i].bucket, EntryFor(s.tally, s.due[e.i].bucket).(quota := s.due[e.i].quota));
    }
  }

  ghost predicate TracksWithRoom(s: State, e: Event) {
    e.Settle? && e.i < |s.due| && s.due[e.i].TrackDue? && s.allocatable != 0 ==>
      Allocated(s.tally, s.due[e.i].bucket) + s.due[e.i].quota <= s.allocatable
  }

  /** The bound holds at every point of the run. */
  ghost predicate AlwaysWithinCapacity(s: State, events: seq<Event>)
    requires IsRun(s, events)
    decreases |events|
  {
    WithinCapacity(s) && (events == [] || AlwaysWithinCapacity(Step(s, events[0]), events[1..]))
  }

  ghost predicate AlwaysRoom(s: State, events: seq<Event>)
    requires IsRun(s, events)
    decreases |events|
  {
    events == [] || (TracksWithRoom(s, events[0]) && AlwaysRoom(Step(s, events[0]), events[1..]))
  }

  /** Over a whole run: the allocations never pass the capacity exactly when every bucket that is tracked
      finds room, whatever was admitted before. */
  lemma {:induction false} RunWithinCapacity(s: State, events: seq<Event>)
    requires IsRun(s, events) && Paid(s.due) && WithinCapacity(s)
    ensures AlwaysWithinCapacity(s, events) <==> AlwaysRoom(s, events)
    decreases |events|
  {
    hide Paid, Step, Enabled, WithinCapacity, TracksWithRoom;
    if events != [] {
      StepPaid(s, events[0]);
      StepWithinCapacity(s, events[0]);
      if TracksWithRoom(s, events[0]) {
        RunWithinCapacity(Step(s, events[0]), events[1..]);
      } else {
        assert !AlwaysWithinCapacity(Step(s, events[0]), events[1..]);
      }
    }
  }

  /** An admission stands until somebody else hands out allocation. */
  lemma {:induction false} AdmissionStands(s: State, events: seq<Event>, quota: nat, bucket: string)
    requires IsRun(s, events) && Paid(s.due) && "" !in s.tally && NobodyHandsOut(s, events)
    requires AdmitsAllocation(s.tally, s.allocatable, quota) && s.allocatable != 0 && quota != 0
    ensures Allocated(Run(s, events).tally, bucket) + quota <= s.allocatable
    decreases |events|
  {
    hide Sum, Paid, Step, Enabled, HandsOut;
    if events == [] {
      SumPut(s.tally, QuotaOf, bucket, NOTHING);
      assert s.tally - {""} == s.tally;
    } else {
      StepPaid(s, events[0]);
      NoNameless(s, events[0]);
      OtherQuotas(s, events[0]);
      assert s.tally - {""} == s.tally;
      var t := Step(s, events[0]);
      assert t.tally - {""} == t.tally;
      AdmissionStands(t, events[1..], quota, bucket);
    }
  }

  ghost predicate NobodyHandsOut(s: State, events: seq<Event>)
    requires IsRun(s, events)
    decreases |events|
  {
    events == [] || (!HandsOut(s, events[0]) && NobodyHandsOut(Step(s, events[0]), events[1..]))
  }

  // ----- Racing creations ------------------------------------------------------------------

  /** Two creations, both admitted and committed before either is tracked. */
  function TwoCreations(first: string, second: string, quota: nat): seq<Event> {
    [Admit(0, quota)] + ([Admit(1, quota)] + ([CommitCreate(0, first)] + ([CommitCreate(1, second)]
      + ([Settle(0)] + ([Settle(0)] + [])))))
  }

  lemma AdmitOne(s: State, creation: nat, quota: nat, rest: seq<Event>)
    requires s.tally == map[] && quota <= s.allocatable && IsRun(s.(passed := s.passed[creation := quota]), rest)
    ensures
      var run := [Admit(creation, quota)] + rest;
      IsRun(s, run) && Run(s, run) == Run(s.(passed := s.passed[creation := quota]), rest)
  {
    hide IsRun, Run;
    assert s.tally - {""} == map[];
    Prepend(s, Admit(creation, quota), s.(passed := s.passed[creation := quota]), rest);
  }

  function Created(s: State, creation: nat, bucket: string, quota: nat): State {
    s.(passed := s.passed - {creation}, buckets := s.buckets + {bucket}, due := s.due + [TrackDue(bucket, quota)])
  }

  lemma CreateOne(s: State, creation: nat, bucket: string, quota: nat, rest: seq<Event>)
    requires creation in s.passed && s.passed[creation] == quota && bucket !in s.buckets && bucket != ""
    requires IsRun(Created(s, creation, bucket, quota), rest)
    ensures
      var run := [CommitCreate(creation, bucket)] + rest;
      IsRun(s, run) && Run(s, run) == Run(Created(s, creation, bucket, quota), rest)
  {
    hide IsRun, Run;
    Prepend(s, CommitCreate(creation, bucket), Created(s, creation, bucket, quota), rest);
  }

  /** They pass, and hand out twice what one of them was admitted for. */
  lemma TwoCreationsOvershoot(s: State, first: string, second: string, quota: nat)
    requires s.tally == map[] && s.due == [] && first != second && first != "" && second != ""
    requires first !in s.buckets && second !in s.buckets
    requires quota <= s.allocatable < 2 * quota
    ensures IsRun(s, TwoCreations(first, second, quota))
    ensures !WithinCapacity(Run(s, TwoCreations(first, second, quota)))
  {
    hide IsRun, Run, Sum;
    var s2 := s.(passed := s.passed[0 := quota]).(passed := s.passed[0 := quota][1 := quota]);
    var s3 := Created(s2, 0, first, quota);
    var s4 := Created(s3, 1, second, quota);
    var e := NOTHING.(quota := quota);
    var s5 := s4.(tally := map[first := e], due := [TrackDue(second, quota)]);
    var s6 := s5.(tally := map[first := e][second := e], due := []);
    Nowhere(s6);
    SettleOne(s5, 0, s6, []);
    SettleOne(s4, 0, s5, [Settle(0)] + []);
    CreateOne(s3, 1, second, quota, [Settle(0)] + ([Settle(0)] + []));
    CreateOne(s2, 0, first, quota, [CommitCreate(1, second)] + ([Settle(0)] + ([Settle(0)] + [])));
    var rest := [CommitCreate(0, first)] + ([CommitCreate(1, second)] + ([Settle(0)] + ([Settle(0)] + [])));
    AdmitOne(s.(passed := s.passed[0 := quota]), 1, quota, rest);
    AdmitOne(s, 0, quota, [Admit(1, quota)] + rest);
    QuotaPut(map[], first, e);
    QuotaPut(s5.tally, second, e);
  }
}
