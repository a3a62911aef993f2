/** What the ledger admits: exactly what fits. A refusal means there is no room, and an admission is made
    good at once. */
module QuotaAdmission {
  import opened Sums
  import opened Quota
  import opened QuotaSystem

  /** What all allocations come to. */
  ghost function Total(t: Tally): nat {
    Sum(t, QuotaOf)
  }

  lemma TotalOfPut(t: Tally, bucket: string, e: Entry)
    ensures Total(t[bucket := e]) == Allocated(t, bucket) + e.quota
  {
    hide Sum;
    var u := t[bucket := e];
    SumOut(u, QuotaOf, bucket);
    assert u - {bucket} == t - {bucket};
  }

  /** A claim is admitted exactly when the bucket with the claim on it is within its allocation; then it is
      on it, and otherwise nothing is. No other bucket notices. */
  lemma ClaimIsExact(t: Tally, bucket: string, wanted: nat, other: string)
    ensures
      var e, u := EntryFor(t, bucket), Claim(t, bucket, wanted);
      var claimed := e.(reserved := e.reserved + wanted);
      && (AdmitsClaim(t, bucket, wanted) <==> Fits(claimed))
      && EntryFor(u, bucket) == (if Fits(claimed) then claimed else e)
      && (other != bucket ==> EntryFor(u, other) == EntryFor(t, other))
  {
  }

  /** What is left of an allocation is admitted, and one byte more is not. */
  lemma AdmitsWhatIsLeft(t: Tally, bucket: string, wanted: nat)
    requires EntryFor(t, bucket).quota != 0
    ensures
      var e := EntryFor(t, bucket);
      AdmitsClaim(t, bucket, wanted) <==> wanted <= e.quota - e.Charged()
  {
    ClaimIsExact(t, bucket, wanted, bucket);
  }

  /** All allocations together are within what the instance can back; nothing is asked of an instance or an
      allocation without a limit. */
  ghost predicate IsBacked(t: Tally, allocatable: nat, quota: nat) {
    allocatable == 0 || quota == 0 || Total(t) <= allocatable
  }

  /** An allocation is set exactly when the bucket is within it and the instance can back it, and it is told
      which of the two it was. */
  lemma VerdictIsExact(t: Tally, allocatable: nat, bucket: string, quota: nat)
    ensures
      var given := EntryFor(t, bucket).(quota := quota);
      var backed := IsBacked(t[bucket := given], allocatable, quota);
      SetQuotaVerdict(t, allocatable, bucket, quota)
        == if !Fits(given) then BelowUsage else if !backed then NoCapacity else Admitted
  {
    hide Sum, Total, Allocated;
    TotalOfPut(t, bucket, EntryFor(t, bucket).(quota := quota));
  }

  /** It governs from then on; a refusal leaves the old one, and no other bucket notices. */
  lemma SetQuotaIsExact(t: Tally, allocatable: nat, bucket: string, quota: nat, other: string)
    ensures
      var e, u := EntryFor(t, bucket), SetQuota(t, allocatable, bucket, quota);
      var v := SetQuotaVerdict(t, allocatable, bucket, quota);
      && EntryFor(u, bucket) == (if v == Admitted then e.(quota := quota) else e)
      && (other != bucket ==> EntryFor(u, other) == EntryFor(t, other))
  {
    hide SetQuotaVerdict;
  }

  lemma QuotaGoverns(t: Tally, allocatable: nat, bucket: string, quota: nat, wanted: nat)
    requires SetQuotaVerdict(t, allocatable, bucket, quota) == Admitted
    ensures AdmitsClaim(SetQuota(t, allocatable, bucket, quota), bucket, wanted)
       <==> quota == 0 || EntryFor(t, bucket).Charged() + wanted <= quota
  {
    hide SetQuotaVerdict, SetQuota, Claim;
    SetQuotaIsExact(t, allocatable, bucket, quota, bucket);
    ClaimIsExact(SetQuota(t, allocatable, bucket, quota), bucket, wanted, bucket);
  }

  /** A bucket that is to be created is admitted exactly when all allocations, its own among them, are within
      what the instance can back. */
  lemma AllocationIsExact(t: Tally, allocatable: nat, bucket: string, quota: nat)
    requires bucket !in t && "" !in t
    ensures AdmitsAllocation(t, allocatable, quota)
       <==> allocatable == 0 || quota == 0 || Total(Track(t, bucket, quota)) <= allocatable
  {
    hide Sum;
    TotalOfPut(t, bucket, NOTHING.(quota := quota));
    assert t - {bucket} == t && t - {""} == t;
  }

  /** What is given back can be claimed again, and a bucket that is forgotten or was never tracked refuses
      nobody. */
  lemma GivenBackIsRoom(t: Tally, bucket: string, bytes: nat)
    requires bucket in t && bytes <= t[bucket].reserved && WithinQuotas(t)
    ensures AdmitsClaim(GiveBack(t, bucket, bytes), bucket, bytes)
    ensures Claim(GiveBack(t, bucket, bytes), bucket, bytes) == t
    ensures AdmitsClaim(Forget(t, bucket), bucket, bytes)
  {
    var e := t[bucket];
    assert Fits(e);
    assert t == t[bucket := e];
  }

  /** A writer that asks for more holds it exactly when it fits, and what it held otherwise; nobody else's
      claim changes. */
  lemma ExtensionHolds(s: State, claim: nat, bucket: string, bytes: nat, other: nat)
    requires Owns(s, claim, bucket)
    ensures
      var e, held, t := EntryFor(s.tally, bucket), HeldBytes(s, claim), Extended(s, claim, bucket, bytes);
      && HeldBytes(t, claim)
           == (if bytes > held && Fits(e.(reserved := e.reserved + (bytes - held))) then bytes else held)
      && (other != claim ==> HeldBytes(t, other) == HeldBytes(s, other))
  {
    if bytes > HeldBytes(s, claim) {
      ClaimIsExact(s.tally, bucket, bytes - HeldBytes(s, claim), bucket);
    }
  }
}
