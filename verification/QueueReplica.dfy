/** A replica of the ordered dict applying the agreed log, and exactly which logs it lists correctly. */
module QueueReplica {
  import opened QueueOrder
  import opened QueueLinks
  import opened OrderedDict
  import opened QueueRuns

  /** The stored links and data after the first `n` operations, whatever they are. */
  function DictAfter(ops: seq<Op>, n: nat, repair: bool): Dict
    requires n <= |ops|
  {
    if n == 0 then NEW_DICT else DoDict(DictAfter(ops, n - 1, repair), ops[n - 1], repair).0
  }

  lemma {:induction false} StepHolds(d: Dict, q: Queue, op: Op, repair: bool)
    requires Holds(d, q, repair)
    ensures Exact(q, op) ==> Holds(DoDict(d, op, repair).0, Do(q, op, repair).0, repair)
    ensures !Exact(q, op) ==> !Shows(DoDict(d, op, repair).0, Items(Do(q, op, repair).0))
  {
    hide Holds, Shows, Items, SetDict, PopDict, MvDict, DoSet, DoPop, DoMv;
    match op {
      case Set(k, v) => SetHolds(d, q, k, v, repair);
      case Pop(k) =>
        HeldStaleKeys(d, q, repair);
        PopOutcome(d, q, k, repair);
      case Mv(k, dest) => MvOutcome(d, q, k, dest, repair);
    }
  }

  lemma HeldStaleKeys(d: Dict, q: Queue, repair: bool)
    requires Holds(d, q, repair)
    ensures forall k | k in q.stale :: k in q.data
  {
  }

  /** As long as no stale key is unlinked the links carry the intended order. */
  lemma {:induction false} RunHolds(ops: seq<Op>, n: nat, repair: bool)
    requires n <= |ops| && forall i | 0 <= i < n :: Exact(QueueAfter(ops, i, repair), ops[i])
    ensures Holds(DictAfter(ops, n, repair), QueueAfter(ops, n, repair), repair)
  {
    hide Exact, DoDict, Do, Holds, Shows, Items;
    if n > 0 {
      RunHolds(ops, n - 1, repair);
      StepHolds(DictAfter(ops, n - 1, repair), QueueAfter(ops, n - 1, repair), ops[n - 1], repair);
    } else {
      NewHolds(repair);
    }
  }

  lemma NewHolds(repair: bool)
    ensures Holds(NEW_DICT, EMPTY, repair)
  {
  }

  ghost predicate ListsCorrectly(ops: seq<Op>, n: nat, repair: bool)
    requires n <= |ops|
  {
    Shows(DictAfter(ops, n, repair), ListAfter(ops, n))
  }

  /** A plain log is listed correctly after every prefix if and only if it is careful: the first time a
      stale key is unlinked, and no sooner, the listing goes wrong. */
  lemma ListedCorrectlyExact(ops: seq<Op>, repair: bool)
    requires forall i | 0 <= i < |ops| :: Plain(ops[i])
    ensures (forall n | 0 <= n <= |ops| :: ListsCorrectly(ops, n, repair)) <==> Careful(ops, repair)
  {
    hide Exact, Plain, DoDict, Do, Holds, Shows, Items, Complete;
    if Careful(ops, repair) {
      forall n | 0 <= n <= |ops| ensures ListsCorrectly(ops, n, repair) {
        RunHolds(ops, n, repair);
        HoldsShows(DictAfter(ops, n, repair), QueueAfter(ops, n, repair), repair);
        RunRefines(ops, n, repair);
      }
    } else {
      var i := FirstStale(ops, repair);
      RunHolds(ops, i, repair);
      StepHolds(DictAfter(ops, i, repair), QueueAfter(ops, i, repair), ops[i], repair);
      RunRefines(ops, i + 1, repair);
      assert !ListsCorrectly(ops, i + 1, repair);
    }
  }

  lemma FirstStale(ops: seq<Op>, repair: bool) returns (i: nat)
    requires exists k :: 0 <= k < |ops| && !Exact(QueueAfter(ops, k, repair), ops[k])
    ensures i < |ops| && !Exact(QueueAfter(ops, i, repair), ops[i])
    ensures forall k | 0 <= k < i :: Exact(QueueAfter(ops, k, repair), ops[k])
  {
    hide Exact, Do;
    i := 0;
    while Exact(QueueAfter(ops, i, repair), ops[i])
      invariant i < |ops| && forall k | 0 <= k < i :: Exact(QueueAfter(ops, k, repair), ops[k])
      decreases |ops| - i
    {
      assert exists k :: i < k < |ops| && !Exact(QueueAfter(ops, k, repair), ops[k]);
      i := i + 1;
    }
  }

  // ---------------------------------------------------------------- the dict itself

  /** Any log at all, operations that raise included. */
  method ApplyLog(ops: seq<Op>, repair: bool) returns (dict: CPOrderedReplDict)
    ensures fresh(dict) && dict.repair == repair && dict.Raw() == DictAfter(ops, |ops|, repair)
  {
    hide SetDict, PopDict, MvDict;
    dict := new CPOrderedReplDict(repair);
    for i := 0 to |ops|
      invariant fresh(dict) && dict.repair == repair && dict.Raw() == DictAfter(ops, i, repair)
    {
      var r;
      match ops[i] {
        case Set(k, v) => r := dict.SetItem(k, v);
        case Pop(k) =>
          var val;
          r, val := dict.Pop(k);
        case Mv(k, dest) => r := dict.Mv(k, dest);
      }
    }
  }

  /** Refinement, end to end: the linked dict is created, applies the log, and is listed by walking its
      links; the listing is the association list's. `repair` as for the dict. */
  method ListAfterLog(ops: seq<Op>, repair: bool) returns (items: seq<Entry>)
    requires Careful(ops, repair)
    ensures items == ListAfter(ops, |ops|)
  {
    var dict := ApplyLog(ops, repair);
    ListedCorrectlyExact(ops, repair);
    assert ListsCorrectly(ops, |ops|, repair);
    ShowsOne(dict.Raw(), ListAfter(ops, |ops|));
    items := dict.OrderedItems();
  }

  lemma ShowsOne(d: Dict, items: seq<Entry>)
    requires Shows(d, items)
    ensures Ends(d.links)
    ensures forall other | Shows(d, other) :: other == items
  {
    var m: nat :| Cursor(d.links.first, d.links.after, m).None? && Listing(d.links.first, d, m) == items;
    forall other | Shows(d, other) ensures other == items {
      var n: nat :| Cursor(d.links.first, d.links.after, n).None? && Listing(d.links.first, d, n) == other;
      ListingSettles(d.links.first, d, m, n);
    }
  }

  /** With the missing back link added, on every plain log. */
  method ListAfterPlainLog(ops: seq<Op>) returns (items: seq<Entry>)
    requires forall i | 0 <= i < |ops| :: Plain(ops[i])
    ensures items == ListAfter(ops, |ops|)
  {
    PlainIsCareful(ops, true);
    items := ListAfterLog(ops, true);
  }
}
