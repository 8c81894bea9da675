/** One reconciliation cycle: list every record, verify each, and run the
    create path for each one reported missing. A failure while repairing one
    record is caught and the cycle moves on to the next. */
module Reconciler {
  import opened Base
  import opened Entity
  import opened Cluster
  import opened Provisioner
  import Store

  /** One record's turn: verify; if missing, create, dropping the create's
      error. A present record only costs its reads; a missing one can gain at
      most its own objects and its namespace; nothing is ever removed. */
  function SyncOne(w: World, f: Faults, r: WorkspaceResource): (w': World)
    ensures w.objects <= w'.objects && w.log <= w'.log
    ensures VerifyResources(w, f, r).present ==> w' == World(w.objects, w.log + Calls(Read, CreationOrder(r)))
    ensures w'.objects - w.objects <= Footprint(r) + {NamespaceOf(r)}
  {
    var check := VerifyResources(w, f, r);
    if check.present then check.world
    else
      CreateAddsOnlyFootprint(check.world, f, r);
      CreateK8sResources(check.world, f, r).world
  }

  /** The records' turns in listing order. */
  function SyncAll(w: World, f: Faults, rs: seq<WorkspaceResource>): World
    decreases |rs|
  {
    if rs == [] then w else SyncOne(SyncAll(w, f, rs[..|rs| - 1]), f, rs[|rs| - 1])
  }

  /** A whole cycle: every listed record takes its turn, each failure
      contained. When the listing fails the cycle ends with nothing done; in
      any case no object is removed and the log is only appended to. */
  function SyncResources(t: Store.Table, w: World, f: Faults, listingFails: bool): (w': World)
    requires Store.Valid(t)
    ensures listingFails ==> w' == w
    ensures !listingFails ==> w' == SyncAll(w, f, Store.FindAll(t))
    ensures w.objects <= w'.objects && w.log <= w'.log
  {
    SyncAllGrows(w, f, Store.FindAll(t));
    if listingFails then w else SyncAll(w, f, Store.FindAll(t))
  }

  /** A present record costs four reads and nothing else; a missing one gets a
      create attempt (namespace, then claim) right after its reads. */
  lemma SyncOneCalls(w: World, f: Faults, r: WorkspaceResource)
    ensures var w' := SyncOne(w, f, r);
      && w'.log[..|w.log| + 4] == w.log + Calls(Read, CreationOrder(r))
      && (VerifyResources(w, f, r).present ==> w' == World(w.objects, w.log + Calls(Read, CreationOrder(r))))
      && (!VerifyResources(w, f, r).present ==>
            |w'.log| >= |w.log| + 6
            && w'.log[|w.log| + 4] == Call(Create, NamespaceOf(r))
            && w'.log[|w.log| + 5] == Call(Create, ClaimRef(r)))
  {
    var check := VerifyResources(w, f, r);
    if !check.present {
      var s := CreateK8sResources(check.world, f, r);
      var k := FirstBlocked(check.world.objects, f, CreationOrder(r));
      assert |Calls(Create, CreationOrder(r)[..Attempted(k, 4)])| >= 1;
    }
  }

  /** A cycle only ever adds objects and only ever appends to the log. */
  lemma {:induction false} SyncAllGrows(w: World, f: Faults, rs: seq<WorkspaceResource>)
    ensures w.objects <= SyncAll(w, f, rs).objects
    ensures w.log <= SyncAll(w, f, rs).log
    decreases |rs|
  {
    if rs != [] {
      var before := SyncAll(w, f, rs[..|rs| - 1]);
      SyncAllGrows(w, f, rs[..|rs| - 1]);
      SyncOneCalls(before, f, rs[|rs| - 1]);
      var check := VerifyResources(before, f, rs[|rs| - 1]);
      if !check.present {
        var s := CreateK8sResources(check.world, f, rs[|rs| - 1]);
        assert check.world.objects <= s.world.objects;
      }
    }
  }

  lemma {:induction false} SyncAllPrefix(w: World, f: Faults, rs: seq<WorkspaceResource>, i: nat)
    requires i <= |rs|
    ensures SyncAll(w, f, rs[..i]).log <= SyncAll(w, f, rs).log
    decreases |rs|
  {
    if i < |rs| {
      var init := rs[..|rs| - 1];
      assert rs[..i] == init[..i];
      SyncAllPrefix(w, f, init, i);
      SyncAllGrows(SyncAll(w, f, init), f, [rs[|rs| - 1]]);
      assert SyncAll(SyncAll(w, f, init), f, [rs[|rs| - 1]]) == SyncAll(w, f, rs) by {
        assert [rs[|rs| - 1]][..0] == [];
      }
    } else {
      assert rs[..i] == rs;
    }
  }

  lemma SyncAllStep(w: World, f: Faults, rs: seq<WorkspaceResource>, i: nat)
    requires i < |rs|
    ensures SyncAll(w, f, rs[..i + 1]) == SyncOne(SyncAll(w, f, rs[..i]), f, rs[i])
  {
    assert rs[..i + 1][..i] == rs[..i];
  }

  /** What a log shows between `before` and `next` survives in any extension `after`. */
  lemma SliceThrough(before: seq<Call>, next: seq<Call>, after: seq<Call>, readCalls: seq<Call>,
                     missing: bool, c4: Call, c5: Call)
    requires |readCalls| == 4
    requires |next| >= |before| + 4 && next[..|before| + 4] == before + readCalls
    requires missing ==> |next| >= |before| + 6 && next[|before| + 4] == c4 && next[|before| + 5] == c5
    requires next <= after
    ensures |after| >= |before| + 4 && after[|before|..|before| + 4] == readCalls
    ensures missing ==> |after| >= |before| + 6 && after[|before| + 4] == c4 && after[|before| + 5] == c5
  {
    assert (before + readCalls)[|before|..] == readCalls;
    assert after[|before|..|before| + 4] == next[|before|..|before| + 4];
  }

  /** One turn's calls, seen in any log that extends the turn's own. */
  lemma TurnSeenInLog(before: World, f: Faults, r: WorkspaceResource, after: seq<Call>)
    requires SyncOne(before, f, r).log <= after
    ensures |after| >= |before.log| + 4
    ensures after[|before.log|..|before.log| + 4] == Calls(Read, CreationOrder(r))
    ensures !VerifyResources(before, f, r).present ==>
      |after| >= |before.log| + 6
      && after[|before.log| + 4] == Call(Create, NamespaceOf(r))
      && after[|before.log| + 5] == Call(Create, ClaimRef(r))
  {
    SyncOneCalls(before, f, r);
    SliceThrough(before.log, SyncOne(before, f, r).log, after, Calls(Read, CreationOrder(r)),
                 !VerifyResources(before, f, r).present,
                 Call(Create, NamespaceOf(r)), Call(Create, ClaimRef(r)));
  }

  /** Per-record isolation: whatever happened to the records before it, the
      record at position `i` gets its four reads, and if it is then missing its
      create attempt, in the log of the whole cycle. */
  lemma CycleVisitsEveryRecord(w: World, f: Faults, rs: seq<WorkspaceResource>, i: nat)
    requires i < |rs|
    ensures var before := SyncAll(w, f, rs[..i]);
      var after := SyncAll(w, f, rs);
      && |after.log| >= |before.log| + 4
      && after.log[|before.log|..|before.log| + 4] == Calls(Read, CreationOrder(rs[i]))
      && (!VerifyResources(before, f, rs[i]).present ==>
            |after.log| >= |before.log| + 6
            && after.log[|before.log| + 4] == Call(Create, NamespaceOf(rs[i]))
            && after.log[|before.log| + 5] == Call(Create, ClaimRef(rs[i])))
  {
    SyncAllStep(w, f, rs, i);
    SyncAllPrefix(w, f, rs, i + 1);
    TurnSeenInLog(SyncAll(w, f, rs[..i]), f, rs[i], SyncAll(w, f, rs).log);
  }

  /** A record whose claim exists but whose deployment does not is never
      repaired: every later turn fails at the claim and leaves it so. */
  predicate Stalled(w: World, r: WorkspaceResource) {
    ClaimRef(r) in w.objects && DeploymentRef(r) !in w.objects
  }

  lemma StallPersists(w: World, f: Faults, r: WorkspaceResource)
    requires Stalled(w, r)
    ensures !VerifyResources(w, f, r).present
    ensures Stalled(SyncOne(w, f, r), r)
  {
    FootprintInEffectiveNamespace(r);
    assert !Readable(w, f, DeploymentRef(r));
    var check := VerifyResources(w, f, r);
    ExistingClaimStopsCreate(check.world, f, r);
  }

  /** With no injected errors, a record with none of its objects is fully
      provisioned by its turn. */
  lemma RepairWithoutFaults(w: World, r: WorkspaceResource)
    requires Footprint(r) !! w.objects
    ensures Footprint(r) <= SyncOne(w, {}, r).objects
  {
    FootprintInEffectiveNamespace(r);
    assert !Readable(w, {}, ClaimRef(r));
    var check := VerifyResources(w, {}, r);
    CreateSucceedsIff(check.world, {}, r);
  }

  /** The cycle as a loop over the listing, each record's failure contained. */
  method SyncCycle(t: Store.Table, w: World, f: Faults, listingFails: bool) returns (w': World)
    requires Store.Valid(t)
    ensures w' == SyncResources(t, w, f, listingFails)
    ensures listingFails ==> w' == w
    ensures w.objects <= w'.objects && w.log <= w'.log
  {
    if listingFails {
      return w;
    }
    var records := Store.FindAll(t);
    w' := w;
    for i := 0 to |records|
      invariant w' == SyncAll(w, f, records[..i])
    {
      SyncAllStep(w, f, records, i);
      var check := VerifyResources(w', f, records[i]);
      if check.present {
        w' := check.world;
      } else {
        var step := CreateK8sResources(check.world, f, records[i]);
        w' := step.world;
      }
    }
    assert records[..|records|] == records;
    SyncAllGrows(w, f, records);
  }
}
