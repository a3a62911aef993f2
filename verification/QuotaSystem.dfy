/** The storage engine's use of the quota ledger, with any number of writers. A write commits to the
    metadata store first and tells the ledger later, in a locked section of its own; anything may
    happen in between. Each commit and each section is one step. */
module QuotaSystem {
  import opened Sums
  import opened Quota

  datatype ObjectKey = ObjectKey(bucket: string, key: string)
  datatype PartKey = PartKey(bucket: string, upload: string, number: nat)

  /** What is committed and still has to be told to the ledger. A settlement owns the claim it was
      given, so `held` is counted here and no longer among the claims. */
  datatype Due =
    | ObjectDue(bucket: string, held: nat, stored: nat, replaced: nat)
    | PartDue(bucket: string, held: nat, stored: nat, replaced: nat)
    | DeletionDue(bucket: string, released: nat)
    | AbortDue(bucket: string, released: nat)
    | CompletionDue(bucket: string, stored: nat, replaced: nat, released: nat)
    | TrackDue(bucket: string, quota: nat)
    | ForgetDue(bucket: string)

  /** `passed` has the bucket creations whose allocation was admitted; `due` is in commit order. */
  datatype State = State(
    tally: Tally,
    allocatable: nat,
    passed: map<nat, nat>,
    claims: map<nat, Held>,
    buckets: set<string>,
    objects: map<ObjectKey, nat>,
    parts: map<PartKey, nat>,
    due: seq<Due>)

  /** `claim` names a reservation object; one that holds nothing is settled at no cost. */
  datatype Event =
    | Admit(creation: nat, quota: nat)
    | CommitCreate(creation: nat, bucket: string)
    | CommitDelete(bucket: string)
    | Allocate(bucket: string, quota: nat)
    | Extend(claim: nat, bucket: string, bytes: nat)
    | Release(claim: nat)
    | Move(to: nat, from: nat)
    | CommitObject(claim: nat, bucket: string, key: string, stored: nat)
    | CommitPart(claim: nat, bucket: string, upload: string, number: nat, stored: nat)
    | CommitDeletion(bucket: string, key: string)
    | CommitAbort(bucket: string, upload: string)
    | CommitCompletion(bucket: string, upload: string, key: string, stored: nat)
    | Settle(i: nat)

  function HeldBytes(s: State, claim: nat): nat {
    if claim in s.claims then s.claims[claim].bytes else 0
  }

  function SizeOf<K>(m: map<K, nat>, k: K): nat {
    if k in m then m[k] else 0
  }

  function ClaimWeight(bucket: string): (nat, Held) -> nat {
    (id, h: Held) => if h.bucket == bucket then h.bytes else 0
  }

  function ObjectWeight(bucket: string): (ObjectKey, nat) -> nat {
    (k: ObjectKey, size) => if k.bucket == bucket then size else 0
  }

  function PartWeight(bucket: string): (PartKey, nat) -> nat {
    (k: PartKey, size) => if k.bucket == bucket then size else 0
  }

  /** The parts of one upload, counted towards one bucket. */
  function UploadWeight(bucket: string, upload: string, counted: string): (PartKey, nat) -> nat {
    (k: PartKey, size) => if k.bucket == bucket && k.upload == upload && k.bucket == counted then size else 0
  }

  function PartsOf(parts: map<PartKey, nat>, bucket: string, upload: string): set<PartKey> {
    set k | k in parts && k.bucket == bucket && k.upload == upload
  }

  ghost function UploadBytes(s: State, bucket: string, upload: string): nat {
    Sum(s.parts, UploadWeight(bucket, upload, bucket))
  }

  /** A claim that a write to `bucket` may settle: extending it refuses another bucket's. */
  predicate Owns(s: State, claim: nat, bucket: string) {
    claim in s.claims ==> s.claims[claim].bucket == bucket
  }

  /** What the code itself sees to. A write extends its claim to what it stored before it commits; the
      metadata store looks for the bucket, and deletes only an empty one; no bucket is nameless. */
  predicate Enabled(s: State, e: Event) {
    match e
    case CommitCreate(creation, bucket) => creation in s.passed && bucket !in s.buckets && bucket != ""
    case CommitDelete(bucket) =>
      && bucket in s.buckets && bucket != ""
      && (forall k :: k in s.objects ==> k.bucket != bucket)
      && (forall k :: k in s.parts ==> k.bucket != bucket)
    case Allocate(bucket, _) => bucket != ""
    case Extend(_, bucket, _) => bucket != ""
    case CommitObject(claim, bucket, _, stored) =>
      bucket in s.buckets && bucket != "" && Owns(s, claim, bucket) && stored <= HeldBytes(s, claim)
    case CommitPart(claim, bucket, _, _, stored) =>
      bucket in s.buckets && bucket != "" && Owns(s, claim, bucket) && stored <= HeldBytes(s, claim)
    case CommitDeletion(bucket, _) => bucket in s.buckets && bucket != ""
    case CommitAbort(bucket, _) => bucket != ""
    case CommitCompletion(bucket, _, _, _) => bucket in s.buckets && bucket != ""
    case Settle(i) => i < |s.due|
    case _ => true
  }

  /** A claim raised to `bytes` in total, or left alone. */
  function Extended(s: State, claim: nat, bucket: string, bytes: nat): State {
    var held := HeldBytes(s, claim);
    if !Owns(s, claim, bucket) || bytes <= held then s
    else
      var after := s.(tally := Claim(s.tally, bucket, bytes - held));
      if AdmitsClaim(s.tally, bucket, bytes - held) then after.(claims := s.claims[claim := Held(bucket, bytes)])
      else after
  }

  function Released(s: State, claim: nat): State {
    if claim !in s.claims then s
    else s.(tally := GiveBack(s.tally, s.claims[claim].bucket, s.claims[claim].bytes), claims := s.claims - {claim})
  }

  /** Move assignment: what the target held is given back, the source is left empty. */
  function Moved(s: State, to: nat, from: nat): State {
    if to == from then s
    else
      var r := Released(s, to);
      if from in r.claims then r.(claims := (r.claims - {from})[to := r.claims[from]]) else r
  }

  /** The locked section that settles a commit. */
  function Record(t: Tally, d: Due): Tally {
    match d
    case ObjectDue(bucket, held, stored, replaced) => RecordObject(t, bucket, held, stored, replaced)
    case PartDue(bucket, held, stored, replaced) => RecordPart(t, bucket, held, stored, replaced)
    case DeletionDue(bucket, released) => RecordDeletion(t, bucket, released)
    case AbortDue(bucket, released) => RecordUploadAborted(t, bucket, released)
    case CompletionDue(bucket, stored, replaced, released) =>
      RecordUploadCompleted(t, bucket, stored, replaced, released)
    case TrackDue(bucket, quota) => Track(t, bucket, quota)
    case ForgetDue(bucket) => Forget(t, bucket)
  }

  function Without(due: seq<Due>, i: nat): seq<Due>
    requires i < |due|
  {
    due[..i] + due[i + 1..]
  }

  predicate Commits(e: Event) {
    !e.Admit? && !e.Allocate? && !e.Extend? && !e.Release? && !e.Move? && !e.Settle?
  }

  /** What a commit leaves to be told. */
  ghost function Owed(s: State, e: Event): Due
    requires Enabled(s, e) && Commits(e)
  {
    match e
    case CommitCreate(creation, bucket) => TrackDue(bucket, s.passed[creation])
    case CommitDelete(bucket) => ForgetDue(bucket)
    case CommitObject(claim, bucket, key, stored) =>
      ObjectDue(bucket, HeldBytes(s, claim), stored, SizeOf(s.objects, ObjectKey(bucket, key)))
    case CommitPart(claim, bucket, upload, number, stored) =>
      PartDue(bucket, HeldBytes(s, claim), stored, SizeOf(s.parts, PartKey(bucket, upload, number)))
    case CommitDeletion(bucket, key) => DeletionDue(bucket, SizeOf(s.objects, ObjectKey(bucket, key)))
    case CommitAbort(bucket, upload) => AbortDue(bucket, UploadBytes(s, bucket, upload))
    case CommitCompletion(bucket, upload, key, stored) =>
      CompletionDue(bucket, stored, SizeOf(s.objects, ObjectKey(bucket, key)), UploadBytes(s, bucket, upload))
  }

  /** What a commit does to the rows and takes from the claims. */
  function Committed(s: State, e: Event): State
    requires Enabled(s, e)
  {
    match e
    case CommitCreate(creation, bucket) => s.(passed := s.passed - {creation}, buckets := s.buckets + {bucket})
    case CommitDelete(bucket) => s.(buckets := s.buckets - {bucket})
    case CommitObject(claim, bucket, key, stored) =>
      s.(claims := s.claims - {claim}, objects := s.objects[ObjectKey(bucket, key) := stored])
    case CommitPart(claim, bucket, upload, number, stored) =>
      s.(claims := s.claims - {claim}, parts := s.parts[PartKey(bucket, upload, number) := stored])
    case CommitDeletion(bucket, key) => s.(objects := s.objects - {ObjectKey(bucket, key)})
    case CommitAbort(bucket, upload) => s.(parts := s.parts - PartsOf(s.parts, bucket, upload))
    case CommitCompletion(bucket, upload, key, stored) =>
      s.(parts := s.parts - PartsOf(s.parts, bucket, upload), objects := s.objects[ObjectKey(bucket, key) := stored])
    case _ => s
  }

  ghost function Step(s: State, e: Event): State
    requires Enabled(s, e)
  {
    match e
    case Admit(creation, quota) =>
      if AdmitsAllocation(s.tally, s.allocatable, quota) then s.(passed := s.passed[creation := quota]) else s
    case Allocate(bucket, quota) => s.(tally := SetQuota(s.tally, s.allocatable, bucket, quota))
    case Extend(claim, bucket, bytes) => Extended(s, claim, bucket, bytes)
    case Release(claim) => Released(s, claim)
    case Move(to, from) => Moved(s, to, from)
    case Settle(i) => s.(tally := Record(s.tally, s.due[i]), due := Without(s.due, i))
    case _ => Committed(s, e).(due := s.due + [Owed(s, e)])
  }

  // ----- The three figures of a bucket, and what they stand for --------------------

  datatype Figure = Used | Pending | Reserved

  function FigureOf(e: Entry, f: Figure): nat {
    match f
    case Used => e.used
    case Pending => e.pending
    case Reserved => e.reserved
  }

  ghost function Truth(s: State, f: Figure, bucket: string): nat {
    match f
    case Used => Sum(s.objects, ObjectWeight(bucket))
    case Pending => Sum(s.parts, PartWeight(bucket))
    case Reserved => Sum(s.claims, ClaimWeight(bucket))
  }

  /** What settling `d` adds to a figure of its bucket, and what it then takes away. */
  function In(d: Due, f: Figure): nat {
    match f
    case Used => if d.ObjectDue? || d.CompletionDue? then d.stored else 0
    case Pending => if d.PartDue? then d.stored else 0
    case Reserved => 0
  }

  function Out(d: Due, f: Figure): nat {
    match f
    case Used =>
      if d.ObjectDue? || d.CompletionDue? then d.replaced else if d.DeletionDue? then d.released else 0
    case Pending =>
      if d.PartDue? then d.replaced else if d.AbortDue? || d.CompletionDue? then d.released else 0
    case Reserved => if d.ObjectDue? || d.PartDue? then d.held else 0
  }

  function Net(d: Due, f: Figure, bucket: string): int {
    if d.bucket == bucket then In(d, f) - Out(d, f) else 0
  }

  /** What all outstanding settlements will change, together. */
  function Outstanding(due: seq<Due>, f: Figure, bucket: string): int {
    if due == [] then 0 else Outstanding(due[..|due| - 1], f, bucket) + Net(due[|due| - 1], f, bucket)
  }

  /** How far a figure is off, once what is outstanding is allowed for. */
  ghost function Drift(s: State, f: Figure, bucket: string): int {
    FigureOf(EntryFor(s.tally, bucket), f) + Outstanding(s.due, f, bucket) - Truth(s, f, bucket)
  }

  /** What a subtraction asks for beyond what is there. */
  function Excess(from: nat, amount: nat): nat {
    if amount > from then amount - from else 0
  }

  /** What a step asks a figure for and does not get, because subtraction stops at zero. */
  function Saturated(s: State, e: Event, f: Figure, bucket: string): nat
    requires Enabled(s, e)
  {
    var now := FigureOf(EntryFor(s.tally, bucket), f);
    match e
    case Settle(i) =>
      if s.due[i].bucket == bucket && !s.due[i].ForgetDue? then Excess(now + In(s.due[i], f), Out(s.due[i], f)) else 0
    case Release(claim) => if f.Reserved? && GivesBack(s, claim, bucket) then Excess(now, s.claims[claim].bytes) else 0
    case Move(to, from) =>
      if f.Reserved? && to != from && GivesBack(s, to, bucket) then Excess(now, s.claims[to].bytes) else 0
    case _ => 0
  }

  predicate GivesBack(s: State, claim: nat, bucket: string) {
    claim in s.claims && s.claims[claim].bucket == bucket
  }

  /** What forgetting a bucket drops from a figure. */
  function Dropped(s: State, e: Event, f: Figure, bucket: string): nat
    requires Enabled(s, e)
  {
    if e.Settle? && s.due[e.i] == ForgetDue(bucket) then FigureOf(EntryFor(s.tally, bucket), f) else 0
  }

  // ----- Proofs: the sums -------------------------------------------------------------

  lemma ClaimOut(claims: map<nat, Held>, claim: nat, bucket: string)
    ensures Sum(claims, ClaimWeight(bucket))
         == Sum(claims - {claim}, ClaimWeight(bucket))
            + if claim in claims && claims[claim].bucket == bucket then claims[claim].bytes else 0
  {
    if claim in claims {
      SumOut(claims, ClaimWeight(bucket), claim);
    } else {
      assert claims - {claim} == claims;
    }
  }

  lemma ClaimPut(claims: map<nat, Held>, claim: nat, h: Held, bucket: string)
    ensures Sum(claims[claim := h], ClaimWeight(bucket))
         == Sum(claims - {claim}, ClaimWeight(bucket)) + if h.bucket == bucket then h.bytes else 0
  {
    SumPut(claims, ClaimWeight(bucket), claim, h);
  }

  lemma ObjectPut(objects: map<ObjectKey, nat>, k: ObjectKey, size: nat, bucket: string)
    ensures Sum(objects[k := size], ObjectWeight(bucket)) + (if k.bucket == bucket then SizeOf(objects, k) else 0)
         == Sum(objects, ObjectWeight(bucket)) + if k.bucket == bucket then size else 0
    ensures Sum(objects - {k}, ObjectWeight(bucket)) + (if k.bucket == bucket then SizeOf(objects, k) else 0)
         == Sum(objects, ObjectWeight(bucket))
  {
    SumPut(objects, ObjectWeight(bucket), k, size);
  }

  lemma PartPut(parts: map<PartKey, nat>, k: PartKey, size: nat, bucket: string)
    ensures Sum(parts[k := size], PartWeight(bucket)) + (if k.bucket == bucket then SizeOf(parts, k) else 0)
         == Sum(parts, PartWeight(bucket)) + if k.bucket == bucket then size else 0
  {
    SumPut(parts, PartWeight(bucket), k, size);
  }

  lemma PartsOut(s: State, bucket: string, upload: string, counted: string)
    ensures Sum(s.parts, PartWeight(counted))
         == Sum(s.parts - PartsOf(s.parts, bucket, upload), PartWeight(counted))
            + if counted == bucket then UploadBytes(s, bucket, upload) else 0
  {
    SumDrop(s.parts, PartWeight(counted), UploadWeight(bucket, upload, counted), PartsOf(s.parts, bucket, upload));
    if counted != bucket {
      SumNothing(s.parts, UploadWeight(bucket, upload, counted));
    }
  }

  lemma OutstandingAdds(due: seq<Due>, d: Due, f: Figure, bucket: string)
    ensures Outstanding(due + [d], f, bucket) == Outstanding(due, f, bucket) + Net(d, f, bucket)
  {
    assert (due + [d])[..|due|] == due;
  }

  lemma {:induction false} OutstandingDrops(due: seq<Due>, i: nat, f: Figure, bucket: string)
    requires i < |due|
    ensures Outstanding(Without(due, i), f, bucket) == Outstanding(due, f, bucket) - Net(due[i], f, bucket)
    decreases |due|
  {
    hide Net;
    var last := |due| - 1;
    if i == last {
      assert Without(due, i) == due[..last];
    } else {
      OutstandingDrops(due[..last], i, f, bucket);
      assert Without(due, i) == Without(due[..last], i) + [due[last]];
      OutstandingAdds(Without(due[..last], i), due[last], f, bucket);
    }
  }

  // ----- Every byte is accounted for, however the steps interleave -------------------

  /** What a commit owes says what it does to the rows. */
  ghost predicate Owes(s: State, e: Event, f: Figure, bucket: string)
    requires Enabled(s, e) && Commits(e)
  {
    Truth(Committed(s, e), f, bucket) - Truth(s, f, bucket) == Net(Owed(s, e), f, bucket)
  }

  lemma ObjectOwes(s: State, e: Event, f: Figure, bucket: string)
    requires Enabled(s, e) && e.CommitObject?
    ensures Owes(s, e, f, bucket)
  {
    hide Sum;
    ClaimOut(s.claims, e.claim, bucket);
    ObjectPut(s.objects, ObjectKey(e.bucket, e.key), e.stored, bucket);
  }

  lemma PartOwes(s: State, e: Event, f: Figure, bucket: string)
    requires Enabled(s, e) && e.CommitPart?
    ensures Owes(s, e, f, bucket)
  {
    hide Sum;
    ClaimOut(s.claims, e.claim, bucket);
    PartPut(s.parts, PartKey(e.bucket, e.upload, e.number), e.stored, bucket);
  }

  lemma DeletionOwes(s: State, e: Event, f: Figure, bucket: string)
    requires Enabled(s, e) && e.CommitDeletion?
    ensures Owes(s, e, f, bucket)
  {
    hide Sum;
    ObjectPut(s.objects, ObjectKey(e.bucket, e.key), 0, bucket);
  }

  lemma UploadOwes(s: State, e: Event, f: Figure, bucket: string)
    requires Enabled(s, e) && (e.CommitAbort? || e.CommitCompletion?)
    ensures Owes(s, e, f, bucket)
  {
    hide Sum, PartsOf, UploadBytes;
    PartsOut(s, e.bucket, e.upload, bucket);
    if e.CommitCompletion? {
      ObjectPut(s.objects, ObjectKey(e.bucket, e.key), e.stored, bucket);
    }
  }

  /** A commit changes what is true by just what its settlement will change. */
  lemma CommitOwes(s: State, e: Event, f: Figure, bucket: string)
    requires Enabled(s, e) && Commits(e)
    ensures Owes(s, e, f, bucket)
  {
    if e.CommitCreate? || e.CommitDelete? {
      hide Sum;
    } else {
      hide Owes;
      match e
      case CommitObject(_, _, _, _) => ObjectOwes(s, e, f, bucket);
      case CommitPart(_, _, _, _, _) => PartOwes(s, e, f, bucket);
      case CommitDeletion(_, _) => DeletionOwes(s, e, f, bucket);
      case _ => UploadOwes(s, e, f, bucket);
    }
  }

  /** A settlement changes a figure of its bucket as it says, down to zero at most, and no other. */
  lemma RecordFigure(t: Tally, d: Due, f: Figure, bucket: string)
    ensures FigureOf(EntryFor(Record(t, d), bucket), f)
         == if d.bucket != bucket then FigureOf(EntryFor(t, bucket), f)
            else if d.ForgetDue? then 0
            else Take(FigureOf(EntryFor(t, bucket), f) + In(d, f), Out(d, f))
  {
  }

  lemma ClaimFigure(t: Tally, b: string, wanted: nat, f: Figure, bucket: string)
    ensures FigureOf(EntryFor(Claim(t, b, wanted), bucket), f)
         == FigureOf(EntryFor(t, bucket), f)
            + if b == bucket && f.Reserved? && AdmitsClaim(t, b, wanted) then wanted else 0
  {
    hide AdmitsClaim;
  }

  lemma GiveBackFigure(t: Tally, b: string, bytes: nat, f: Figure, bucket: string)
    ensures FigureOf(EntryFor(GiveBack(t, b, bytes), bucket), f)
         == if b == bucket && f.Reserved? then Take(FigureOf(EntryFor(t, bucket), f), bytes)
            else FigureOf(EntryFor(t, bucket), f)
  {
  }

  lemma ExtendedConserves(s: State, claim: nat, b: string, bytes: nat, f: Figure, bucket: string)
    ensures Drift(Extended(s, claim, b, bytes), f, bucket) == Drift(s, f, bucket)
  {
    hide Sum, Outstanding, Claim, AdmitsClaim;
    if Owns(s, claim, b) && bytes > HeldBytes(s, claim) {
      ClaimFigure(s.tally, b, bytes - HeldBytes(s, claim), f, bucket);
      ClaimOut(s.claims, claim, bucket);
      ClaimPut(s.claims, claim, Held(b, bytes), bucket);
    }
  }

  lemma ReleasedConserves(s: State, claim: nat, f: Figure, bucket: string)
    ensures Drift(Released(s, claim), f, bucket)
         == Drift(s, f, bucket) + Saturated(s, Release(claim), f, bucket)
  {
    hide Sum, Outstanding, GiveBack;
    if claim in s.claims {
      GiveBackFigure(s.tally, s.claims[claim].bucket, s.claims[claim].bytes, f, bucket);
      ClaimOut(s.claims, claim, bucket);
    }
  }

  lemma MovedConserves(s: State, to: nat, from: nat, f: Figure, bucket: string)
    ensures Drift(Moved(s, to, from), f, bucket) == Drift(s, f, bucket) + Saturated(s, Move(to, from), f, bucket)
  {
    hide Sum, Outstanding, GiveBack;
    if to != from {
      ReleasedConserves(s, to, f, bucket);
      var r := Released(s, to);
      if from in r.claims {
        ClaimOut(r.claims, from, bucket);
        ClaimPut(r.claims - {from}, to, r.claims[from], bucket);
        assert r.claims - {from} - {to} == r.claims - {from};
      }
    }
  }

  lemma SettleConserves(s: State, i: nat, f: Figure, bucket: string)
    requires i < |s.due|
    ensures Drift(Step(s, Settle(i)), f, bucket)
         == Drift(s, f, bucket) + Saturated(s, Settle(i), f, bucket) - Dropped(s, Settle(i), f, bucket)
  {
    hide Sum, Outstanding, Record, Without;
    OutstandingDrops(s.due, i, f, bucket);
    RecordFigure(s.tally, s.due[i], f, bucket);
  }

  /** Conservation: a figure, with what is outstanding, moves away from the truth only by what a
      subtraction did not find, and by what forgetting the bucket dropped. */
  lemma StepConserves(s: State, e: Event, f: Figure, bucket: string)
    requires Enabled(s, e)
    ensures Drift(Step(s, e), f, bucket)
         == Drift(s, f, bucket) + Saturated(s, e, f, bucket) - Dropped(s, e, f, bucket)
  {
    hide Drift, Record, Without, Moved, Released, Extended, Owed, Committed;
    match e
    case Admit(_, _) => SameDrift(s, e, f, bucket);
    case Allocate(_, _) => SameDrift(s, e, f, bucket);
    case Extend(claim, b, bytes) => ExtendedConserves(s, claim, b, bytes, f, bucket);
    case Release(claim) => ReleasedConserves(s, claim, f, bucket);
    case Move(to, from) => MovedConserves(s, to, from, f, bucket);
    case Settle(i) => SettleConserves(s, i, f, bucket);
    case _ => CommitConserves(s, e, f, bucket);
  }

  lemma SameDrift(s: State, e: Event, f: Figure, bucket: string)
    requires Enabled(s, e) && (e.Admit? || e.Allocate?)
    ensures Drift(Step(s, e), f, bucket) == Drift(s, f, bucket)
  {
    hide Sum, SetQuotaVerdict, AdmitsAllocation;
  }

  lemma CommitConserves(s: State, e: Event, f: Figure, bucket: string)
    requires Enabled(s, e) && Commits(e)
    ensures Drift(Step(s, e), f, bucket) == Drift(s, f, bucket)
  {
    hide Sum, Outstanding, Owed, Committed, Step;
    CommitOwes(s, e, f, bucket);
    OutstandingAdds(s.due, Owed(s, e), f, bucket);
    CommitStep(s, e);
  }

  lemma CommitStep(s: State, e: Event)
    requires Enabled(s, e) && Commits(e)
    ensures Step(s, e) == Committed(s, e).(due := s.due + [Owed(s, e)])
    ensures Committed(s, e).tally == s.tally && Committed(s, e).allocatable == s.allocatable
    ensures Owed(s, e).ForgetDue? ==> e.CommitDelete? && Owed(s, e).bucket == e.bucket
  {
    hide PartsOf, UploadBytes;
  }

  // ----- Whole runs ---------------------------------------------------------------------

  ghost predicate IsRun(s: State, events: seq<Event>)
    decreases |events|
  {
    events == [] || (Enabled(s, events[0]) && IsRun(Step(s, events[0]), events[1..]))
  }

  ghost function Run(s: State, events: seq<Event>): State
    requires IsRun(s, events)
    decreases |events|
  {
    if events == [] then s else Run(Step(s, events[0]), events[1..])
  }

  /** Everything a figure of a bucket was asked for in vain along a run. */
  ghost function AllSaturated(s: State, events: seq<Event>, f: Figure, bucket: string): nat
    requires IsRun(s, events)
    decreases |events|
  {
    if events == [] then 0
    else Saturated(s, events[0], f, bucket) + AllSaturated(Step(s, events[0]), events[1..], f, bucket)
  }

  ghost function AllDropped(s: State, events: seq<Event>, f: Figure, bucket: string): nat
    requires IsRun(s, events)
    decreases |events|
  {
    if events == [] then 0
    else Dropped(s, events[0], f, bucket) + AllDropped(Step(s, events[0]), events[1..], f, bucket)
  }

  /** Conservation over any run of any number of writers, with no condition on how they interleave. */
  lemma {:induction false} RunConserves(s: State, events: seq<Event>, f: Figure, bucket: string)
    requires IsRun(s, events)
    ensures Drift(Run(s, events), f, bucket)
         == Drift(s, f, bucket) + AllSaturated(s, events, f, bucket) - AllDropped(s, events, f, bucket)
    decreases |events|
  {
    hide Drift, Step, Enabled, Saturated, Dropped;
    if events != [] {
      StepConserves(s, events[0], f, bucket);
      RunConserves(Step(s, events[0]), events[1..], f, bucket);
    }
  }

  /** Once everything is settled, a figure that started out true is true again exactly when what
      saturation swallowed is what forgetting dropped; without forgetting, exactly when no subtraction
      along the run fell short, and it is otherwise too high by just what they fell short of. */
  lemma SettledIsTrue(s: State, events: seq<Event>, f: Figure, bucket: string)
    requires IsRun(s, events) && Drift(s, f, bucket) == 0 && Run(s, events).due == []
    ensures
      var now := FigureOf(EntryFor(Run(s, events).tally, bucket), f);
      var off := AllSaturated(s, events, f, bucket) - AllDropped(s, events, f, bucket);
      now == Truth(Run(s, events), f, bucket) + off
    ensures
      var right := FigureOf(EntryFor(Run(s, events).tally, bucket), f) == Truth(Run(s, events), f, bucket);
      AllDropped(s, events, f, bucket) == 0 ==> (right <==> NoneFallsShort(s, events, f, bucket))
  {
    RunConserves(s, events, f, bucket);
    NothingSaturates(s, events, f, bucket);
  }

  /** No subtraction of this figure along the run asks for more than there is. */
  ghost predicate NoneFallsShort(s: State, events: seq<Event>, f: Figure, bucket: string)
    requires IsRun(s, events)
    decreases |events|
  {
    events == []
    || (Saturated(s, events[0], f, bucket) == 0 && NoneFallsShort(Step(s, events[0]), events[1..], f, bucket))
  }

  lemma {:induction false} NothingSaturates(s: State, events: seq<Event>, f: Figure, bucket: string)
    requires IsRun(s, events)
    ensures NoneFallsShort(s, events, f, bucket) <==> AllSaturated(s, events, f, bucket) == 0
    decreases |events|
  {
    hide Step, Enabled, Saturated;
    if events != [] {
      NothingSaturates(Step(s, events[0]), events[1..], f, bucket);
    }
  }

  /** A step in front of a run that is already known. */
  lemma Prepend(s: State, e: Event, t: State, rest: seq<Event>)
    requires Enabled(s, e) && Step(s, e) == t && IsRun(t, rest)
    ensures IsRun(s, [e] + rest) && Run(s, [e] + rest) == Run(t, rest)
  {
    hide Enabled, Step;
    assert ([e] + rest)[1..] == rest;
  }

  lemma Nowhere(s: State)
    ensures IsRun(s, []) && Run(s, []) == s
  {
  }

  lemma SettleOne(s: State, i: nat, t: State, rest: seq<Event>)
    requires i < |s.due| && IsRun(t, rest)
    requires t == s.(tally := Record(s.tally, s.due[i]), due := s.due[..i] + s.due[i + 1..])
    ensures IsRun(s, [Settle(i)] + rest) && Run(s, [Settle(i)] + rest) == Run(t, rest)
  {
    hide IsRun, Run, Record;
    Prepend(s, Settle(i), t, rest);
  }
}
