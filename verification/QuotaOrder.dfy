/** When the quota ledger's figures are true: the reserved one as long as no bucket is forgotten under a
    claim, all of them when settlements are recorded in the order of their commits. */
module QuotaOrder {
  import opened Sums
  import opened Quota
  import opened QuotaSystem

  // ----- Settling in commit order keeps every figure true ---------------------------------

  /** Settlements of one bucket are recorded in the order of the commits. */
  predicate InOrder(s: State, e: Event) {
    e.Settle? && e.i < |s.due| ==> forall j :: 0 <= j < e.i ==> s.due[j].bucket != s.due[e.i].bucket
  }

  /** A bucket is forgotten only while nothing is reserved in it. */
  predicate ForgetsUnclaimed(s: State, e: Event) {
    e.Settle? && e.i < |s.due| && s.due[e.i].ForgetDue? ==> EntryFor(s.tally, s.due[e.i].bucket).reserved == 0
  }

  /** Settling `due` from the front takes a figure from `level` to `total` without ever falling short;
      where the bucket is forgotten there is nothing to drop. */
  predicate Covered(level: int, due: seq<Due>, f: Figure, bucket: string, total: int)
    decreases |due|
  {
    if due == [] then level == total
    else if due[0].bucket != bucket then Covered(level, due[1..], f, bucket, total)
    else
      && level + Net(due[0], f, bucket) >= 0
      && (due[0].ForgetDue? ==> level == 0)
      && Covered(level + Net(due[0], f, bucket), due[1..], f, bucket, total)
  }

  ghost predicate Truthful(s: State, f: Figure, bucket: string) {
    if f.Reserved? then Drift(s, f, bucket) == 0
    else Covered(FigureOf(EntryFor(s.tally, bucket), f), s.due, f, bucket, Truth(s, f, bucket))
  }

  lemma {:induction false} CoveredAdds(level: int, due: seq<Due>, d: Due, f: Figure, bucket: string, total: int)
    requires Covered(level, due, f, bucket, total)
    requires total + Net(d, f, bucket) >= 0 && (d == ForgetDue(bucket) ==> total == 0)
    ensures Covered(level, due + [d], f, bucket, total + Net(d, f, bucket))
    decreases |due|
  {
    if due == [] {
      assert due + [d] == [d];
      assert Covered(level + Net(d, f, bucket), [], f, bucket, total + Net(d, f, bucket));
    } else {
      hide Net;
      assert (due + [d])[1..] == due[1..] + [d];
      CoveredAdds(level + if due[0].bucket != bucket then 0 else Net(due[0], f, bucket), due[1..], d, f, bucket, total);
    }
  }

  lemma WithoutFirst(due: seq<Due>)
    requires due != []
    ensures Without(due, 0) == due[1..]
  {
  }

  lemma WithoutLater(due: seq<Due>, i: nat)
    requires 0 < i < |due|
    ensures Without(due, i) == [due[0]] + Without(due[1..], i - 1)
    ensures Without(due, i) != [] && Without(due, i)[0] == due[0] && Without(due, i)[1..] == Without(due[1..], i - 1)
  {
    assert due[..i] == [due[0]] + due[1..][..i - 1];
    assert due[i + 1..] == due[1..][i..];
    assert Without(due, i) == [due[0]] + Without(due[1..], i - 1);
  }

  /** Taking out the first settlement of the bucket, wherever it stands, covers what is left. */
  lemma {:induction false} CoveredSettles(level: int, due: seq<Due>, i: nat, f: Figure, bucket: string, total: int)
    requires Covered(level, due, f, bucket, total) && i < |due| && due[i].bucket == bucket
    requires forall j :: 0 <= j < i ==> due[j].bucket != bucket
    ensures level + Net(due[i], f, bucket) >= 0 && (due[i].ForgetDue? ==> level == 0)
    ensures Covered(level + Net(due[i], f, bucket), Without(due, i), f, bucket, total)
    decreases |due|
  {
    hide Net, Without;
    if i == 0 {
      WithoutFirst(due);
    } else {
      WithoutLater(due, i);
      CoveredSettles(level, due[1..], i - 1, f, bucket, total);
    }
  }

  lemma {:induction false} CoveredSkips(level: int, due: seq<Due>, i: nat, f: Figure, bucket: string, total: int)
    requires Covered(level, due, f, bucket, total) && i < |due| && due[i].bucket != bucket
    ensures Covered(level, Without(due, i), f, bucket, total)
    decreases |due|
  {
    hide Net, Without;
    if i == 0 {
      WithoutFirst(due);
    } else {
      WithoutLater(due, i);
      var next := level + if due[0].bucket != bucket then 0 else Net(due[0], f, bucket);
      CoveredSkips(next, due[1..], i - 1, f, bucket, total);
    }
  }

  lemma {:induction false} CoveredEnds(level: int, due: seq<Due>, f: Figure, bucket: string, total: int)
    requires Covered(level, due, f, bucket, total)
    ensures level + Outstanding(due, f, bucket) == total
    decreases |due|
  {
    hide Net, Outstanding;
    if due == [] {
      assert Outstanding([], f, bucket) == 0 by { NothingOutstanding(f, bucket); }
    } else {
      CoveredEnds(level + if due[0].bucket != bucket then 0 else Net(due[0], f, bucket), due[1..], f, bucket, total);
      WithoutFirst(due);
      OutstandingDrops(due, 0, f, bucket);
      NetElsewhere(due[0], f, bucket);
    }
  }

  lemma NothingOutstanding(f: Figure, bucket: string)
    ensures Outstanding([], f, bucket) == 0
  {
  }

  lemma NetElsewhere(d: Due, f: Figure, bucket: string)
    ensures d.bucket != bucket ==> Net(d, f, bucket) == 0
    ensures d.bucket == bucket ==> Net(d, f, bucket) == In(d, f) - Out(d, f)
    ensures f.Reserved? ==> Net(d, f, bucket) <= 0
  {
  }

  /** A true figure has no drift. */
  lemma TruthfulSays(s: State, f: Figure, bucket: string)
    requires Truthful(s, f, bucket)
    ensures Drift(s, f, bucket) == 0
  {
    hide Sum;
    if !f.Reserved? {
      CoveredEnds(FigureOf(EntryFor(s.tally, bucket), f), s.due, f, bucket, Truth(s, f, bucket));
    }
  }

  /** What is held by one settlement is part of what is reserved. */
  lemma {:induction false} HeldOutstanding(due: seq<Due>, i: nat, bucket: string)
    requires i < |due|
    ensures Outstanding(due, Reserved, bucket) <= Net(due[i], Reserved, bucket) <= 0
    decreases |due|
  {
    var last := |due| - 1;
    assert Net(due[last], Reserved, bucket) <= 0;
    if i < last {
      HeldOutstanding(due[..last], i, bucket);
    } else if last > 0 {
      HeldOutstanding(due[..last], 0, bucket);
    }
  }

  lemma HeldIsReserved(s: State, claim: nat)
    requires claim in s.claims && Drift(s, Reserved, s.claims[claim].bucket) == 0
    ensures s.claims[claim].bytes <= EntryFor(s.tally, s.claims[claim].bucket).reserved
  {
    hide Sum;
    ClaimOut(s.claims, claim, s.claims[claim].bucket);
    if s.due != [] {
      HeldOutstanding(s.due, 0, s.claims[claim].bucket);
    }
  }

  lemma SettledHoldIsReserved(s: State, i: nat)
    requires i < |s.due| && Drift(s, Reserved, s.due[i].bucket) == 0
    ensures Out(s.due[i], Reserved) <= EntryFor(s.tally, s.due[i].bucket).reserved
  {
    hide Sum, Outstanding;
    HeldOutstanding(s.due, i, s.due[i].bucket);
  }

  /** The reserved figure needs no order: it falls short in no step at all. */
  lemma ReservedNeverSaturates(s: State, e: Event, bucket: string)
    requires Enabled(s, e) && Drift(s, Reserved, bucket) == 0
    ensures Saturated(s, e, Reserved, bucket) == 0
  {
    hide Sum, Outstanding, Drift;
    match e
    case Release(claim) => if GivesBack(s, claim, bucket) { HeldIsReserved(s, claim); }
    case Move(to, _) => if GivesBack(s, to, bucket) { HeldIsReserved(s, to); }
    case Settle(i) => if s.due[i].bucket == bucket { SettledHoldIsReserved(s, i); }
    case _ =>
  }

  /** In commit order nothing is ever asked for that is not there, and forgetting drops nothing. */
  lemma NeverSaturates(s: State, e: Event, f: Figure, bucket: string)
    requires Truthful(s, f, bucket) && Enabled(s, e) && InOrder(s, e) && ForgetsUnclaimed(s, e)
    ensures Saturated(s, e, f, bucket) == 0 && Dropped(s, e, f, bucket) == 0
  {
    hide Sum, Outstanding, Net, Covered, In, Out, Drift;
    if f.Reserved? {
      ReservedNeverSaturates(s, e, bucket);
    } else if e.Settle? && s.due[e.i].bucket == bucket {
      CoveredSettles(FigureOf(EntryFor(s.tally, bucket), f), s.due, e.i, f, bucket, Truth(s, f, bucket));
      NetElsewhere(s.due[e.i], f, bucket);
    }
  }

  lemma SettleCovers(s: State, i: nat, f: Figure, bucket: string)
    requires i < |s.due| && !f.Reserved? && Truthful(s, f, bucket) && InOrder(s, Settle(i))
    ensures Truthful(Step(s, Settle(i)), f, bucket)
  {
    hide Sum, Net, Covered, In, Out, Record, Without;
    var level, total := FigureOf(EntryFor(s.tally, bucket), f), Truth(s, f, bucket);
    RecordFigure(s.tally, s.due[i], f, bucket);
    NetElsewhere(s.due[i], f, bucket);
    if s.due[i].bucket == bucket {
      CoveredSettles(level, s.due, i, f, bucket, total);
      ForgetsNothing(s.due[i], f);
    } else {
      CoveredSkips(level, s.due, i, f, bucket, total);
    }
  }

  lemma ForgetsNothing(d: Due, f: Figure)
    ensures d.ForgetDue? ==> In(d, f) == 0 && Out(d, f) == 0
  {
  }

  /** A bucket whose deletion commits holds nothing. */
  lemma EmptyAtDelete(s: State, bucket: string, f: Figure)
    requires Enabled(s, CommitDelete(bucket)) && !f.Reserved?
    ensures Truth(s, f, bucket) == 0
  {
    SumNothing(s.objects, ObjectWeight(bucket));
    SumNothing(s.parts, PartWeight(bucket));
  }

  lemma CommitCovers(s: State, e: Event, f: Figure, bucket: string)
    requires Commits(e) && Enabled(s, e) && !f.Reserved? && Truthful(s, f, bucket)
    ensures Truthful(Step(s, e), f, bucket)
  {
    hide Sum, Net, Covered, Committed, Owed, Step;
    CommitOwes(s, e, f, bucket);
    CommitStep(s, e);
    if e.CommitDelete? {
      EmptyAtDelete(s, e.bucket, f);
    }
    CoveredAdds(FigureOf(EntryFor(s.tally, bucket), f), s.due, Owed(s, e), f, bucket, Truth(s, f, bucket));
  }

  /** The other steps touch neither rows nor settlements, and no figure but the reserved one. */
  lemma OthersCover(s: State, e: Event, f: Figure, bucket: string)
    requires Enabled(s, e) && !Commits(e) && !e.Settle? && !f.Reserved? && Truthful(s, f, bucket)
    ensures Truthful(Step(s, e), f, bucket)
  {
    hide Sum, Covered, Claim, GiveBack, SetQuotaVerdict, AdmitsClaim;
    if e.Extend? && e.bytes > HeldBytes(s, e.claim) {
      ClaimFigure(s.tally, e.bucket, e.bytes - HeldBytes(s, e.claim), f, bucket);
    } else if e.Release? && e.claim in s.claims {
      GiveBackFigure(s.tally, s.claims[e.claim].bucket, s.claims[e.claim].bytes, f, bucket);
    } else if e.Move? && e.to in s.claims {
      GiveBackFigure(s.tally, s.claims[e.to].bucket, s.claims[e.to].bytes, f, bucket);
    }
  }

  /** Every step in commit order keeps every figure true. */
  lemma StepTruthful(s: State, e: Event, f: Figure, bucket: string)
    requires Truthful(s, f, bucket) && Enabled(s, e) && InOrder(s, e) && ForgetsUnclaimed(s, e)
    ensures Truthful(Step(s, e), f, bucket)
  {
    hide Sum, Outstanding, Net, Covered, Drift, Saturated, Dropped, Step, Owed, Committed;
    NeverSaturates(s, e, f, bucket);
    if f.Reserved? {
      StepConserves(s, e, f, bucket);
    } else if e.Settle? {
      SettleCovers(s, e.i, f, bucket);
    } else if Commits(e) {
      CommitCovers(s, e, f, bucket);
    } else {
      OthersCover(s, e, f, bucket);
    }
  }

  predicate Orderly(s: State, e: Event) {
    InOrder(s, e) && ForgetsUnclaimed(s, e)
  }

  ghost predicate OrderlyRun(s: State, events: seq<Event>)
    requires IsRun(s, events)
    decreases |events|
  {
    events == [] || (Orderly(s, events[0]) && OrderlyRun(Step(s, events[0]), events[1..]))
  }

  /** At every point of an orderly run every figure is what the rows and claims add up to, but for what
      is committed and not yet recorded; and no subtraction has fallen short. */
  lemma {:induction false} RunKeeps(s: State, events: seq<Event>, f: Figure, bucket: string)
    requires IsRun(s, events) && OrderlyRun(s, events) && Truthful(s, f, bucket)
    ensures Truthful(Run(s, events), f, bucket) && NoneFallsShort(s, events, f, bucket)
    ensures FigureOf(EntryFor(Run(s, events).tally, bucket), f)
         == Truth(Run(s, events), f, bucket) - Outstanding(Run(s, events).due, f, bucket)
    decreases |events|
  {
    hide Truthful, Step, Enabled, Saturated, InOrder, ForgetsUnclaimed;
    if events == [] {
      TruthfulSays(s, f, bucket);
    } else {
      NeverSaturates(s, events[0], f, bucket);
      StepTruthful(s, events[0], f, bucket);
      RunKeeps(Step(s, events[0]), events[1..], f, bucket);
    }
  }

  /** With no claim and no settlement outstanding, nothing is reserved. */
  lemma NothingLeaks(s: State, bucket: string)
    requires Truthful(s, Reserved, bucket) && s.claims == map[] && s.due == []
    ensures EntryFor(s.tally, bucket).reserved == 0
  {
  }

  // ----- The start ---------------------------------------------------------------------------

  /** The startup scan: each bucket is seeded with what its rows add up to. */
  ghost function Scanned(s: State, names: seq<string>, quotas: string -> nat): State
    decreases |names|
  {
    if names == [] then s
    else
      var b := names[0];
      Scanned(s.(tally := Seed(s.tally, b, quotas(b), Truth(s, Used, b), Truth(s, Pending, b))), names[1..], quotas)
  }

  lemma SeedIsTruthful(s: State, bucket: string, quota: nat, f: Figure, other: string)
    requires s.claims == map[] && s.due == []
    ensures
      var t := s.(tally := Seed(s.tally, bucket, quota, Truth(s, Used, bucket), Truth(s, Pending, bucket)));
      bucket == other || Truthful(s, f, other) ==> Truthful(t, f, other)
  {
    NothingOutstanding(f, other);
  }

  /** The scan starts the ledger with the truth, when it meets every bucket that has rows. */
  lemma {:induction false} ScanIsTruthful(s: State, names: seq<string>, quotas: string -> nat, f: Figure,
                                          bucket: string)
    requires s.claims == map[] && s.due == []
    requires bucket in names || Truthful(s, f, bucket)
    ensures Truthful(Scanned(s, names, quotas), f, bucket)
    decreases |names|
  {
    hide Truthful, Truth;
    if names != [] {
      var b := names[0];
      SeedIsTruthful(s, b, quotas(b), f, bucket);
      ScanIsTruthful(s.(tally := Seed(s.tally, b, quotas(b), Truth(s, Used, b), Truth(s, Pending, b))), names[1..],
                     quotas, f, bucket);
    }
  }

  lemma NoRowsIsTruthful(s: State, f: Figure, bucket: string)
    requires s.claims == map[] && s.due == [] && bucket !in s.tally
    requires (forall k :: k in s.objects ==> k.bucket != bucket) && (forall k :: k in s.parts ==> k.bucket != bucket)
    ensures Truthful(s, f, bucket)
  {
    NothingOutstanding(f, bucket);
    SumNothing(s.objects, ObjectWeight(bucket));
    SumNothing(s.parts, PartWeight(bucket));
  }

  // ----- Out of order ---------------------------------------------------------------------

  /** A key written and at once deleted, with the deletion recorded first. */
  function Raced(claim: nat, bucket: string, key: string, stored: nat): seq<Event> {
    [CommitObject(claim, bucket, key, stored)] + ([CommitDeletion(bucket, key)] + ([Settle(1)] + ([Settle(0)] + [])))
  }

  /** The bucket's used bytes come out right exactly when it already held as much as was written, and
      too high otherwise, for good. */
  lemma RacedDeletion(s: State, claim: nat, bucket: string, key: string, stored: nat)
    requires s.due == [] && Drift(s, Used, bucket) == 0 && ObjectKey(bucket, key) !in s.objects
    requires Enabled(s, CommitObject(claim, bucket, key, stored))
    ensures
      var run := Raced(claim, bucket, key, stored);
      && IsRun(s, run) && Run(s, run).due == [] && Run(s, run).objects == s.objects
      && var right := EntryFor(Run(s, run).tally, bucket).used == Truth(Run(s, run), Used, bucket);
         right <==> stored <= EntryFor(s.tally, bucket).used || stored == 0
  {
    hide IsRun, Run, Sum, Record, Enabled;
    var written, deleted := ObjectDue(bucket, HeldBytes(s, claim), stored, 0), DeletionDue(bucket, stored);
    var s2 := s.(claims := s.claims - {claim}, due := [written, deleted]);
    var s3 := s2.(tally := Record(s2.tally, deleted), due := [written]);
    var s4 := s3.(tally := Record(s3.tally, written), due := []);
    RecordFigure(s2.tally, deleted, Used, bucket);
    RecordFigure(s3.tally, written, Used, bucket);
    Nowhere(s4);
    SettleOne(s3, 0, s4, []);
    SettleOne(s2, 1, s3, [Settle(0)] + []);
    WriteAndDelete(s, claim, bucket, key, stored, [Settle(1)] + ([Settle(0)] + []));
    NothingOutstanding(Used, bucket);
  }

  lemma WriteAndDelete(s: State, claim: nat, bucket: string, key: string, stored: nat, rest: seq<Event>)
    requires s.due == [] && ObjectKey(bucket, key) !in s.objects
    requires Enabled(s, CommitObject(claim, bucket, key, stored))
    requires IsRun(Written(s, claim, bucket, stored), rest)
    ensures
      var run := [CommitObject(claim, bucket, key, stored)] + ([CommitDeletion(bucket, key)] + rest);
      IsRun(s, run) && Run(s, run) == Run(Written(s, claim, bucket, stored), rest)
  {
    hide IsRun, Run;
    var k := ObjectKey(bucket, key);
    var s1 := Step(s, CommitObject(claim, bucket, key, stored));
    assert s.objects[k := stored] - {k} == s.objects;
    Prepend(s1, CommitDeletion(bucket, key), Written(s, claim, bucket, stored), rest);
    Prepend(s, CommitObject(claim, bucket, key, stored), s1, [CommitDeletion(bucket, key)] + rest);
  }

  /** A key written and deleted again, neither settled. */
  function Written(s: State, claim: nat, bucket: string, stored: nat): State {
    s.(claims := s.claims - {claim},
       due := [ObjectDue(bucket, HeldBytes(s, claim), stored, 0), DeletionDue(bucket, stored)])
  }

  /** Forgetting a bucket loses what is reserved in it; nothing else can make that figure untrue. */
  lemma ForgettingLosesClaims(s: State, e: Event, bucket: string)
    requires Enabled(s, e) && Drift(s, Reserved, bucket) == 0
    ensures Drift(Step(s, e), Reserved, bucket) == 0
       <==> !(e.Settle? && s.due[e.i] == ForgetDue(bucket) && EntryFor(s.tally, bucket).reserved > 0)
  {
    hide Drift, Step, Saturated;
    StepConserves(s, e, Reserved, bucket);
    ReservedNeverSaturates(s, e, bucket);
  }

  /** Settling a claim against another bucket, which extending it refuses, would leave the first one's
      claim behind for good. */
  lemma ForeignSettlementLeaks(s: State, claim: nat, bucket: string, stored: nat, replaced: nat)
    requires claim in s.claims && s.claims[claim].bucket != bucket && s.claims[claim].bytes > 0
    requires Drift(s, Reserved, s.claims[claim].bucket) == 0
    ensures
      var settled := RecordObject(s.tally, bucket, s.claims[claim].bytes, stored, replaced);
      Drift(s.(tally := settled, claims := s.claims - {claim}), Reserved, s.claims[claim].bucket) > 0
  {
    hide Sum, Outstanding;
    ClaimOut(s.claims, claim, s.claims[claim].bucket);
  }
}
