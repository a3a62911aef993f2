/** The quota ledger: each locked section as one function on the tally. QuotaSystem.dfy has the whole
    system, with any number of writers; QuotaLedger.dfy has the classes. */
module Quota {
  import opened Sums

  datatype Entry = Entry(quota: nat, used: nat, pending: nat, reserved: nat) {
    function Charged(): nat {
      used + pending + reserved
    }
  }

  type Tally = map<string, Entry>

  /** What a reservation that holds a claim stands for. */
  datatype Held = Held(bucket: string, bytes: nat)

  const NOTHING: Entry := Entry(0, 0, 0, 0)

  /** Subtraction that cannot wrap. */
  function Take(from: nat, amount: nat): nat {
    if from > amount then from - amount else 0
  }

  function Least(a: nat, b: nat): nat {
    if b < a then b else a
  }

  /** The tally for a bucket; one that is missing is unlimited and holds nothing. */
  function EntryFor(t: Tally, bucket: string): Entry {
    if bucket in t then t[bucket] else NOTHING
  }

  // ----- The locked sections ---------------------------------------------------

  /** A bucket as the startup scan finds it. */
  function Seed(t: Tally, bucket: string, quota: nat, used: nat, pending: nat): Tally {
    t[bucket := Entry(quota, used, pending, 0)]
  }

  function Forget(t: Tally, bucket: string): Tally {
    t - {bucket}
  }

  function Track(t: Tally, bucket: string, quota: nat): Tally {
    t[bucket := EntryFor(t, bucket).(quota := quota)]
  }

  function QuotaOf(name: string, e: Entry): nat {
    e.quota
  }

  ghost function Allocated(t: Tally, except: string): nat {
    Sum(t - {except}, QuotaOf)
  }

  datatype Verdict = Admitted | BelowUsage | NoCapacity | Exceeded | WrongBucket

  /** Nothing already charged may be stranded, and the instance must be able to back the allocation. */
  function Judge(e: Entry, others: nat, allocatable: nat, quota: nat): Verdict {
    if quota != 0 && quota < e.Charged() then BelowUsage
    else if allocatable != 0 && quota != 0 && others + quota > allocatable then NoCapacity
    else Admitted
  }

  ghost function SetQuotaVerdict(t: Tally, allocatable: nat, bucket: string, quota: nat): Verdict {
    Judge(EntryFor(t, bucket), Allocated(t, bucket), allocatable, quota)
  }

  /** A refusal still leaves an entry behind for a bucket that had none. */
  ghost function SetQuota(t: Tally, allocatable: nat, bucket: string, quota: nat): Tally {
    var e := EntryFor(t, bucket);
    t[bucket := if SetQuotaVerdict(t, allocatable, bucket, quota) == Admitted then e.(quota := quota) else e]
  }

  ghost predicate AdmitsAllocation(t: Tally, allocatable: nat, quota: nat) {
    allocatable == 0 || quota == 0 || Allocated(t, "") + quota <= allocatable
  }

  predicate AdmitsClaim(t: Tally, bucket: string, wanted: nat) {
    var e := EntryFor(t, bucket);
    e.quota == 0 || e.Charged() + wanted <= e.quota
  }

  function Claim(t: Tally, bucket: string, wanted: nat): Tally {
    var e := EntryFor(t, bucket);
    t[bucket := if AdmitsClaim(t, bucket, wanted) then e.(reserved := e.reserved + wanted) else e]
  }

  function GiveBack(t: Tally, bucket: string, bytes: nat): Tally {
    if bytes == 0 || bucket !in t then t
    else t[bucket := t[bucket].(reserved := Take(t[bucket].reserved, bytes))]
  }

  /** Settlement of an object: the claim goes and the charge comes in one step. */
  function RecordObject(t: Tally, bucket: string, claimed: nat, stored: nat, replaced: nat): Tally {
    var e := EntryFor(t, bucket);
    t[bucket := e.(reserved := Take(e.reserved, claimed), used := Take(e.used + stored, replaced))]
  }

  function RecordPart(t: Tally, bucket: string, claimed: nat, stored: nat, replaced: nat): Tally {
    var e := EntryFor(t, bucket);
    t[bucket := e.(reserved := Take(e.reserved, claimed), pending := Take(e.pending + stored, replaced))]
  }

  function RecordDeletion(t: Tally, bucket: string, released: nat): Tally {
    var e := EntryFor(t, bucket);
    if released == 0 then t else t[bucket := e.(used := Take(e.used, released))]
  }

  function RecordUploadAborted(t: Tally, bucket: string, released: nat): Tally {
    var e := EntryFor(t, bucket);
    if released == 0 then t else t[bucket := e.(pending := Take(e.pending, released))]
  }

  function RecordUploadCompleted(t: Tally, bucket: string, stored: nat, replaced: nat, released: nat): Tally {
    var e := EntryFor(t, bucket);
    t[bucket := e.(pending := Take(e.pending, released), used := Take(e.used + stored, replaced))]
  }

  // ----- What the sections keep ------------------------------------------------------

  /** No bucket with an allocation is charged more than it. */
  predicate WithinQuotas(t: Tally) {
    forall bucket :: bucket in t ==> Fits(t[bucket])
  }

  predicate Fits(e: Entry) {
    e.quota == 0 || e.Charged() <= e.quota
  }

  lemma EntryFits(t: Tally, bucket: string)
    requires WithinQuotas(t)
    ensures Fits(EntryFor(t, bucket))
  {
  }

  lemma OneFits(t: Tally, bucket: string, e: Entry)
    requires WithinQuotas(t)
    ensures WithinQuotas(t[bucket := e]) <==> Fits(e)
  {
    hide Fits;
    assert t[bucket := e][bucket] == e;
  }

  lemma FewerFit(t: Tally, bucket: string)
    requires WithinQuotas(t)
    ensures WithinQuotas(Forget(t, bucket))
  {
    hide Fits;
  }

  /** Tracking a bucket keeps the allocation bound exactly when what it already holds fits. */
  lemma TrackNeedsRoom(t: Tally, bucket: string, quota: nat)
    requires WithinQuotas(t)
    ensures WithinQuotas(Track(t, bucket, quota)) <==> quota == 0 || EntryFor(t, bucket).Charged() <= quota
  {
    OneFits(t, bucket, EntryFor(t, bucket).(quota := quota));
  }

  /** What a completed upload adds, beyond the object it replaces, fits beside the parts that are already
      counted as pending. */
  predicate CompletionFits(e: Entry, stored: nat, replaced: nat, released: nat) {
    e.quota == 0
    || e.Charged() + stored <= e.quota + Least(replaced, e.used + stored) + Least(released, e.pending)
  }

  /** Completing an upload asks for no admission: it keeps the bound exactly when there is room. */
  lemma CompletionNeedsParts(t: Tally, bucket: string, stored: nat, replaced: nat, released: nat)
    requires WithinQuotas(t)
    ensures WithinQuotas(RecordUploadCompleted(t, bucket, stored, replaced, released))
       <==> CompletionFits(EntryFor(t, bucket), stored, replaced, released)
  {
    var e := EntryFor(t, bucket);
    OneFits(t, bucket, e.(pending := Take(e.pending, released), used := Take(e.used + stored, replaced)));
  }

  /** The two settlements of a key that is written and then deleted, recorded in either order: they
      agree exactly when the bucket already counted what the deletion gives back, or nothing was written.
      Otherwise the deletion saturates first, and what it released is lost. */
  lemma OrderMatters(t: Tally, bucket: string, claimed: nat, stored: nat, released: nat)
    requires released > 0
    ensures
      RecordDeletion(RecordObject(t, bucket, claimed, stored, 0), bucket, released)
        == RecordObject(RecordDeletion(t, bucket, released), bucket, claimed, stored, 0)
      <==> released <= EntryFor(t, bucket).used || stored == 0
  {
    var written := RecordDeletion(RecordObject(t, bucket, claimed, stored, 0), bucket, released);
    var deleted := RecordObject(RecordDeletion(t, bucket, released), bucket, claimed, stored, 0);
    assert written[bucket].used == Take(EntryFor(t, bucket).used + stored, released);
    assert deleted[bucket].used == Take(EntryFor(t, bucket).used, released) + stored;
    assert written[bucket].(used := 0) == deleted[bucket].(used := 0);
    assert written == t[bucket := written[bucket]] && deleted == t[bucket := deleted[bucket]];
  }
}
