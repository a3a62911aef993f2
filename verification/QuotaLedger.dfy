/** The ledger and its move-only reservations as objects; each method is one locked section, proved
    against the functions of Quota.dfy. */
module QuotaLedger {
  import opened Option
  import opened Sums
  import Q = Quota

  class Ledger {
    var buckets: Q.Tally
    const allocatable: nat

    constructor (allocatableBytes: nat)
      ensures buckets == map[] && allocatable == allocatableBytes
    {
      buckets, allocatable := map[], allocatableBytes;
    }

    /** Establishes a bucket from the startup scan. */
    method Seed(bucket: string, quota: nat, used: nat, pending: nat)
      modifies this
      ensures buckets == Q.Seed(old(buckets), bucket, quota, used, pending)
    {
      buckets := buckets[bucket := Q.Entry(quota, used, pending, 0)];
    }

    method Track(bucket: string, quota: nat)
      modifies this
      ensures buckets == Q.Track(old(buckets), bucket, quota)
    {
      EnsureEntry(bucket);
      buckets := buckets[bucket := buckets[bucket].(quota := quota)];
    }

    method Forget(bucket: string)
      modifies this
      ensures buckets == Q.Forget(old(buckets), bucket)
    {
      buckets := buckets - {bucket};
    }

    /** The tally of a bucket, created unlimited if it is not there. */
    method EnsureEntry(bucket: string)
      modifies this
      ensures buckets == old(buckets)[bucket := Q.EntryFor(old(buckets), bucket)]
    {
      if bucket !in buckets {
        buckets := buckets[bucket := Q.NOTHING];
      }
      assert old(buckets)[bucket := Q.EntryFor(old(buckets), bucket)] == buckets;
    }

    method AllocatedLocked(except: string) returns (total: nat)
      ensures total == Q.Allocated(buckets, except)
    {
      hide Sum;
      total := 0;
      var left := buckets.Keys;
      Only(buckets, left);
      while left != {}
        invariant left <= buckets.Keys
        invariant total + Q.Allocated(Restrict(buckets, left), except) == Q.Allocated(buckets, except)
        decreases |left|
      {
        var name :| name in left;
        RestrictStep(buckets, left, name, except);
        if name != except {
          total := total + buckets[name].quota;
        }
        left := left - {name};
      }
      assert Restrict(buckets, {}) - {except} == map[];
      SumNothing(Restrict(buckets, {}) - {except}, Q.QuotaOf);
    }

    /** Replaces an allocation, unless it is already outgrown or the instance cannot back it. */
    method SetQuota(bucket: string, quota: nat) returns (v: Q.Verdict)
      modifies this
      ensures v == Q.SetQuotaVerdict(old(buckets), allocatable, bucket, quota)
      ensures buckets == Q.SetQuota(old(buckets), allocatable, bucket, quota)
    {
      ghost var before := buckets;
      EnsureEntry(bucket);
      SameVerdict(before, buckets, allocatable, bucket, quota);
      hide Q.SetQuotaVerdict;
      v := JudgeQuota(bucket, quota);
      if v == Q.Admitted {
        buckets := buckets[bucket := buckets[bucket].(quota := quota)];
        assert buckets == before[bucket := Q.EntryFor(before, bucket).(quota := quota)];
      }
    }

    /** The two checks: nothing already held may be stranded, and the instance must be able to back it. */
    method JudgeQuota(bucket: string, quota: nat) returns (v: Q.Verdict)
      requires bucket in buckets
      ensures v == Q.SetQuotaVerdict(buckets, allocatable, bucket, quota)
    {
      hide Q.Allocated;
      if quota != 0 && quota < buckets[bucket].Charged() {
        return Q.BelowUsage;
      }
      if allocatable != 0 && quota != 0 {
        var others := AllocatedLocked(bucket);
        if others + quota > allocatable {
          return Q.NoCapacity;
        }
      }
      v := Q.Admitted;
    }

    method AdmitAllocation(quota: nat) returns (ok: bool)
      ensures ok == Q.AdmitsAllocation(buckets, allocatable, quota)
    {
      if allocatable == 0 || quota == 0 {
        return true;
      }
      var total := AllocatedLocked("");
      ok := total + quota <= allocatable;
    }

    method Reserve(bucket: string, bytes: nat) returns (v: Q.Verdict, r: Reservation)
      modifies this
      ensures fresh(r) && r.Valid() && r.ledger in {null, this}
      ensures
        var ok := bytes == 0 || Q.AdmitsClaim(old(buckets), bucket, bytes);
        && v == (if ok then Q.Admitted else Q.Exceeded)
        && r.View() == (if ok && bytes > 0 then Some(Q.Held(bucket, bytes)) else None)
        && buckets == (if bytes == 0 then old(buckets) else Q.Claim(old(buckets), bucket, bytes))
    {
      r := new Reservation();
      v := Extend(r, bucket, bytes);
    }

    /** Raises a claim to `bytes` in total, admitting only the difference. */
    method Extend(r: Reservation, bucket: string, bytes: nat) returns (v: Q.Verdict)
      requires r.Valid() && r.ledger in {null, this}
      modifies this, r
      ensures r.Valid() && r.ledger in {null, this}
      ensures
        var foreign := old(r.ledger) != null && old(r.bucket) != bucket;
        var wanted := bytes - old(r.bytes);
        if foreign then v == Q.WrongBucket && buckets == old(buckets) && r.View() == old(r.View())
        else if wanted <= 0 then v == Q.Admitted && buckets == old(buckets) && r.View() == old(r.View())
        else
          && buckets == Q.Claim(old(buckets), bucket, wanted)
          && v == (if Q.AdmitsClaim(old(buckets), bucket, wanted) then Q.Admitted else Q.Exceeded)
          && r.View() == (if v == Q.Admitted then Some(Q.Held(bucket, bytes)) else old(r.View()))
    {
      if r.ledger != null && r.bucket != bucket {
        return Q.WrongBucket;
      }
      if bytes <= r.bytes {
        return Q.Admitted;
      }
      var wanted := bytes - r.bytes;
      EnsureEntry(bucket);
      var entry := buckets[bucket];
      if entry.quota != 0 && entry.Charged() + wanted > entry.quota {
        return Q.Exceeded;
      }
      buckets := buckets[bucket := entry.(reserved := entry.reserved + wanted)];
      r.ledger, r.bucket, r.bytes := this, bucket, bytes;
      v := Q.Admitted;
    }

    method GiveBack(bucket: string, bytes: nat)
      modifies this
      ensures buckets == Q.GiveBack(old(buckets), bucket, bytes)
    {
      if bytes != 0 && bucket in buckets {
        var entry := buckets[bucket];
        buckets := buckets[bucket := entry.(reserved := Q.Take(entry.reserved, bytes))];
      }
    }

    /** Drops a claim from an entry and disarms it. */
    method ConsumeLocked(bucket: string, r: Reservation)
      requires bucket in buckets && r.Valid()
      modifies this, r
      ensures r.Valid() && r.ledger == null
      ensures
        var entry := old(buckets[bucket]);
        buckets == old(buckets)[bucket := entry.(reserved := Q.Take(entry.reserved, old(r.bytes)))]
    {
      if r.ledger != null {
        var entry := buckets[bucket];
        buckets := buckets[bucket := entry.(reserved := Q.Take(entry.reserved, r.bytes))];
        r.ledger, r.bytes := null, 0;
      } else {
        assert buckets == buckets[bucket := buckets[bucket].(reserved := Q.Take(buckets[bucket].reserved, 0))];
      }
    }

    method RecordObject(bucket: string, r: Reservation, stored: nat, replaced: nat)
      requires r.Valid()
      modifies this, r
      ensures r.Valid() && r.ledger == null
      ensures buckets == Q.RecordObject(old(buckets), bucket, old(r.bytes), stored, replaced)
    {
      EnsureEntry(bucket);
      ConsumeLocked(bucket, r);
      var entry := buckets[bucket];
      buckets := buckets[bucket := entry.(used := Q.Take(entry.used + stored, replaced))];
    }

    method RecordPart(bucket: string, r: Reservation, stored: nat, replaced: nat)
      requires r.Valid()
      modifies this, r
      ensures r.Valid() && r.ledger == null
      ensures buckets == Q.RecordPart(old(buckets), bucket, old(r.bytes), stored, replaced)
    {
      EnsureEntry(bucket);
      ConsumeLocked(bucket, r);
      var entry := buckets[bucket];
      buckets := buckets[bucket := entry.(pending := Q.Take(entry.pending + stored, replaced))];
    }

    method RecordDeletion(bucket: string, released: nat)
      modifies this
      ensures buckets == Q.RecordDeletion(old(buckets), bucket, released)
    {
      if released != 0 {
        EnsureEntry(bucket);
        var entry := buckets[bucket];
        buckets := buckets[bucket := entry.(used := Q.Take(entry.used, released))];
      }
    }

    method RecordUploadAborted(bucket: string, released: nat)
      modifies this
      ensures buckets == Q.RecordUploadAborted(old(buckets), bucket, released)
    {
      if released != 0 {
        EnsureEntry(bucket);
        var entry := buckets[bucket];
        buckets := buckets[bucket := entry.(pending := Q.Take(entry.pending, released))];
      }
    }

    method RecordUploadCompleted(bucket: string, stored: nat, replaced: nat, released: nat)
      modifies this
      ensures buckets == Q.RecordUploadCompleted(old(buckets), bucket, stored, replaced, released)
    {
      EnsureEntry(bucket);
      var entry := buckets[bucket];
      buckets := buckets[bucket := entry.(pending := Q.Take(entry.pending, released))];
      entry := buckets[bucket];
      buckets := buckets[bucket := entry.(used := Q.Take(entry.used + stored, replaced))];
    }
  }

  /** A claim on a bucket's remaining allocation; it holds none when `ledger` is null. */
  class Reservation {
    var ledger: Ledger?
    var bucket: string
    var bytes: nat

    ghost predicate Valid()
      reads this
    {
      ledger == null ==> bytes == 0
    }

    ghost function View(): Option<Q.Held>
      reads this
    {
      if ledger == null then None else Some(Q.Held(bucket, bytes))
    }

    constructor ()
      ensures Valid() && ledger == null
    {
      ledger, bucket, bytes := null, "", 0;
    }

    /** What the destructor does; a second call does nothing. */
    method Release()
      requires Valid()
      modifies this, if ledger == null then {} else {ledger}
      ensures Valid() && ledger == null
      ensures old(ledger) != null ==> old(ledger).buckets == Q.GiveBack(old(ledger.buckets), old(bucket), old(bytes))
    {
      if ledger != null {
        ledger.GiveBack(bucket, bytes);
        ledger, bytes := null, 0;
      }
    }

    /** Move assignment: gives back what it held and takes over the other's claim. */
    method MoveFrom(other: Reservation)
      requires Valid() && other.Valid()
      modifies this, other, if ledger == null then {} else {ledger}
      ensures Valid() && other.Valid()
      ensures other == this ==> View() == old(View()) && (ledger != null ==> ledger.buckets == old(ledger.buckets))
      ensures other != this ==> View() == old(other.View()) && ledger == old(other.ledger) && other.View() == None
      ensures other != this && old(ledger) != null ==>
                old(ledger).buckets == Q.GiveBack(old(ledger.buckets), old(bucket), old(bytes))
    {
      if other == this {
        return;
      }
      Release();
      ledger, other.ledger := other.ledger, null;
      bucket := other.bucket;
      bytes, other.bytes := other.bytes, 0;
    }
  }

  function Restrict(t: Q.Tally, names: set<string>): Q.Tally {
    map name | name in names && name in t :: t[name]
  }

  lemma Only(t: Q.Tally, names: set<string>)
    requires names == t.Keys
    ensures Restrict(t, names) == t
  {
  }

  /** Creating the missing entry changes no verdict. */
  lemma SameVerdict(t: Q.Tally, u: Q.Tally, allocatable: nat, bucket: string, quota: nat)
    requires u == t[bucket := Q.EntryFor(t, bucket)]
    ensures Q.SetQuotaVerdict(u, allocatable, bucket, quota) == Q.SetQuotaVerdict(t, allocatable, bucket, quota)
  {
    hide Sum, Q.Judge;
    assert u - {bucket} == t - {bucket};
  }

  lemma RestrictStep(t: Q.Tally, names: set<string>, name: string, except: string)
    requires name in names && names <= t.Keys
    ensures Q.Allocated(Restrict(t, names), except)
         == Q.Allocated(Restrict(t, names - {name}), except) + if name == except then 0 else t[name].quota
  {
    var before, after := Restrict(t, names) - {except}, Restrict(t, names - {name}) - {except};
    if name == except {
      assert before == after;
    } else {
      assert before - {name} == after;
      SumOut(before, Q.QuotaOf, name);
    }
  }
}
