/** The links of the ordered dict as a value: what each step assigns, in any state, and what that means
    when the links carry an order. */
module QueueLinks {
  import opened Wrappers
  import opened QueueOrder

  /** The two link dicts and the two ends. `before` may hold an entry under None, because the link step
      also writes the back link of "nothing". */
  datatype Wiring = Wiring(before: map<Option<Key>, Option<Key>>, after: map<Key, Option<Key>>,
                           first: Option<Key>, last: Option<Key>)

  /** Everything the dict stores. */
  datatype Dict = Dict(data: map<Key, Option<Value>>, links: Wiring)

  const NEW_DICT := Dict(map[], Wiring(map[], map[], None, None))

  // ---------------------------------------------------------------- the steps, in any state

  function Cut(w: Wiring, key: Key): (Wiring, Outcome) {
    if Some(key) !in w.before || key !in w.after then (w, KeyError)
    else
      var prev, nxt := w.before[Some(key)], w.after[key];
      (Wiring((if nxt.Some? then w.before[nxt := prev] else w.before) - {Some(key)},
              (if prev.Some? then w.after[prev.value := nxt] else w.after) - {key},
              if prev.None? then nxt else w.first,
              if nxt.None? then prev else w.last), Ok)
  }

  function Tie(w: Wiring, key: Key, dest: Option<Key>, repair: bool): (Wiring, Outcome) {
    if Some(key) in w.before then (w, AssertionError)
    else match dest
      case None =>
        var b := w.before[Some(key) := None];
        (Wiring(if repair && w.first.Some? then b[w.first := Some(key)] else b,
                w.after[key := w.first], Some(key), if w.last.None? then Some(key) else w.last), Ok)
      case Some(a) =>
        if a !in w.after then (w, KeyError)
        else
          var nxt := w.after[a];
          (Wiring(w.before[Some(key) := dest][nxt := Some(key)], w.after[a := Some(key)][key := nxt],
                  w.first, if nxt.None? then Some(key) else w.last), Ok)
  }

  function ValueIn(data: map<Key, Option<Value>>, key: Key): Option<Value> {
    if key in data then data[key] else None
  }

  function SetDict(d: Dict, key: Key, value: Option<Value>, repair: bool): (Dict, Outcome) {
    var (w, r) := if ValueIn(d.data, key).None? then Tie(d.links, key, d.links.last, repair) else (d.links, Ok);
    (Dict(d.data[key := value], w), r)
  }

  function PopDict(d: Dict, key: Key): (Dict, Outcome) {
    if key !in d.data then (d, Ok)
    else
      var (w, r) := Cut(d.links, key);
      (Dict(d.data - {key}, w), r)
  }

  function MvDict(d: Dict, key: Key, dest: Option<Key>, repair: bool): (Dict, Outcome) {
    if dest.Some? && Some(dest.value) !in d.links.before then (d, KeyError)
    else
      var (w, r) := Cut(d.links, key);
      if r != Ok then (d, r)
      else
        var (w', r') := Tie(w, key, dest, repair);
        (d.(links := w'), r')
  }

  function DoDict(d: Dict, op: Op, repair: bool): (Dict, Outcome) {
    match op
    case Set(k, v) => SetDict(d, k, v, repair)
    case Pop(k) => PopDict(d, k)
    case Mv(k, dest) => MvDict(d, k, dest, repair)
  }

  // ---------------------------------------------------------------- walking the links

  function Next(after: map<Key, Option<Key>>, k: Key): Option<Key> {
    if k in after then after[k] else None
  }

  /** Where a walk that stands at `at` stands after `n` more turns. */
  function Cursor(at: Option<Key>, after: map<Key, Option<Key>>, n: nat): Option<Key>
    decreases n
  {
    if n == 0 || at.None? then at else Cursor(Next(after, at.value), after, n - 1)
  }

  /** What those turns list. */
  function Listing(at: Option<Key>, d: Dict, n: nat): seq<Entry>
    decreases n
  {
    if n == 0 || at.None? then []
    else [Entry(at.value, ValueIn(d.data, at.value))] + Listing(Next(d.links.after, at.value), d, n - 1)
  }

  /** The walk from the first key comes to an end. */
  ghost predicate Ends(w: Wiring) {
    exists n: nat :: Cursor(w.first, w.after, n).None?
  }

  /** It does, and has listed exactly `items`. */
  ghost predicate Shows(d: Dict, items: seq<Entry>) {
    exists n: nat :: Cursor(d.links.first, d.links.after, n).None? && Listing(d.links.first, d, n) == items
  }

  lemma {:induction false} ListingSettles(at: Option<Key>, d: Dict, m: nat, n: nat)
    requires Cursor(at, d.links.after, m).None? && Cursor(at, d.links.after, n).None?
    ensures Listing(at, d, m) == Listing(at, d, n)
    decreases m
  {
    if at.Some? {
      ListingSettles(Next(d.links.after, at.value), d, m - 1, n - 1);
    }
  }

  /** A key linked to itself is never left. */
  lemma {:induction false} SelfLoop(after: map<Key, Option<Key>>, k: Key, n: nat)
    requires Next(after, k) == Some(k)
    ensures Cursor(Some(k), after, n) == Some(k)
    decreases n
  {
    if n > 0 {
      SelfLoop(after, k, n - 1);
    }
  }

  // ---------------------------------------------------------------- links that carry an order

  /** The chain that starts at `first` and follows `after` is exactly `s`. */
  ghost predicate Chain(first: Option<Key>, after: map<Key, Option<Key>>, s: seq<Key>) {
    && first == Head(s)
    && forall k | k in s :: k in after && after[k] == Successor(s, k)
  }

  /** Forward links exact; back links exact or, for a stale key, None. */
  ghost predicate Links(w: Wiring, s: seq<Key>, stale: set<Key>) {
    && Distinct(s)
    && Chain(w.first, w.after, s)
    && w.last == Last(s)
    && (forall k :: k in w.after <==> k in s)
    && (forall k :: Some(k) in w.before <==> k in s)
    && (forall k | k in s :: w.before[Some(k)] == if k in stale then None else Predecessor(s, k))
    && (forall k | k in stale :: k in s && Head(s) != Some(k))
  }

  /** The dict stands for the queue `q`. */
  ghost predicate Holds(d: Dict, q: Queue, repair: bool) {
    && d.data == q.data
    && Links(d.links, q.order, q.stale)
    && (forall k | k in q.order :: k in d.data)
    && (repair ==> q.stale == {})
  }

  lemma LinksFacts(w: Wiring, s: seq<Key>, stale: set<Key>)
    requires Links(w, s, stale)
    ensures Distinct(s) && Chain(w.first, w.after, s) && w.first == Head(s) && w.last == Last(s)
    ensures forall k :: Some(k) in w.before <==> k in s
    ensures forall k :: k in w.after <==> k in s
    ensures forall k | k in s :: w.after[k] == Successor(s, k)
    ensures forall k | k in s :: w.before[Some(k)] == if k in stale then None else Predecessor(s, k)
    ensures forall k | k in stale :: k in s && Head(s) != Some(k)
  {
  }

  /** A chain is walked to its end, listing its keys in order. */
  lemma {:induction false} ChainWalked(d: Dict, s: seq<Key>, i: nat)
    requires i <= |s| && Distinct(s) && Chain(d.links.first, d.links.after, s)
    ensures var at := if i < |s| then Some(s[i]) else None;
            && Cursor(at, d.links.after, |s| - i).None?
            && Listing(at, d, |s| - i) == seq(|s| - i, j requires 0 <= j < |s| - i => Entry(s[i + j], ValueIn(d.data, s[i + j])))
    decreases |s| - i
  {
    if i < |s| {
      ChainWalked(d, s, i + 1);
      IndexUnique(s, i);
      assert Next(d.links.after, s[i]) == NextAt(s, i);
    }
  }

  lemma ChainListed(d: Dict, s: seq<Key>)
    requires Distinct(s) && Chain(d.links.first, d.links.after, s)
    ensures Cursor(d.links.first, d.links.after, |s|).None?
    ensures |Listing(d.links.first, d, |s|)| == |s|
    ensures forall j | 0 <= j < |s| :: Listing(d.links.first, d, |s|)[j] == Entry(s[j], ValueIn(d.data, s[j]))
  {
    hide Distinct;
    ChainWalked(d, s, 0);
  }

  lemma {:induction false} HoldsShows(d: Dict, q: Queue, repair: bool)
    requires Holds(d, q, repair)
    ensures Cursor(d.links.first, d.links.after, |q.order|).None?
    ensures Listing(d.links.first, d, |q.order|) == Items(q)
    ensures Shows(d, Items(q)) && Ends(d.links)
  {
    hide Chain, Distinct, Links, Cursor, Listing;
    LinksFacts(d.links, q.order, q.stale);
    ChainListed(d, q.order);
    assert Listing(d.links.first, d, |q.order|) == Items(q);
  }

  /** With an exact back link, the key leaves the order and every link stays exact. */
  lemma {:induction false} CutLinks(w: Wiring, s: seq<Key>, stale: set<Key>, key: Key)
    requires Links(w, s, stale) && key in s && key !in stale
    ensures Cut(w, key).1 == Ok
    ensures Links(Cut(w, key).0, Without(s, key), stale - Elem(Successor(s, key)))
  {
    hide Successor, Predecessor, Without, Placed, Distinct, Last;
    WithoutMembers(s, key);
    WithoutEnds(s, key);
    NeighbourMembers(s, key);
    Adjacent(s, key, key);
    forall k | k in s && k != key
      ensures Successor(s, k) == Some(key) <==> Predecessor(s, key) == Some(k)
      ensures Predecessor(s, k) == Some(key) <==> Successor(s, key) == Some(k)
      ensures k in Without(s, key)
      ensures Successor(Without(s, key), k) == if Successor(s, k) == Some(key) then Successor(s, key) else Successor(s, k)
      ensures Predecessor(Without(s, key), k) == if Predecessor(s, k) == Some(key) then Predecessor(s, key) else Predecessor(s, k)
    {
      Adjacent(s, k, key);
      Adjacent(s, key, k);
      WithoutNeighbours(s, key, k);
    }
  }

  /** In front: the old head becomes stale, unless its back link is set as well. */
  lemma {:induction false} TieFrontLinks(w: Wiring, s: seq<Key>, stale: set<Key>, key: Key)
    requires Links(w, s, stale) && key !in s
    ensures Tie(w, key, None, false).1 == Ok == Tie(w, key, None, true).1
    ensures Links(Tie(w, key, None, false).0, Placed(s, key, None), stale + Elem(Head(s)))
    ensures Links(Tie(w, key, None, true).0, Placed(s, key, None), stale)
  {
    hide Successor, Predecessor, Without, Placed, Distinct, Last;
    PlacedMembers(s, key, None);
    FrontSelf(s, key);
    forall k | k in s
      ensures k in Placed(s, key, None)
      ensures Successor(Placed(s, key, None), k) == Successor(s, k)
      ensures Predecessor(Placed(s, key, None), k) == if Head(s) == Some(k) then Some(key) else Predecessor(s, k)
    {
      FrontNeighbours(s, key, k);
    }
  }

  /** Behind a key: every link stays exact, and the follower's back link becomes exact. */
  lemma {:induction false} TieBehindLinks(w: Wiring, s: seq<Key>, stale: set<Key>, key: Key, dest: Key, repair: bool)
    requires Links(w, s, stale) && key !in s && dest in s
    ensures Tie(w, key, Some(dest), repair).1 == Ok
    ensures Links(Tie(w, key, Some(dest), repair).0, Placed(s, key, Some(dest)), stale - Elem(Successor(s, dest)))
  {
    hide Successor, Predecessor, Without, Placed, Distinct, Last;
    PlacedMembers(s, key, Some(dest));
    PlacedSelf(s, key, dest);
    NeighbourMembers(s, dest);
    forall k | k in s
      ensures k in Placed(s, key, Some(dest))
      ensures Successor(Placed(s, key, Some(dest)), k) == if k == dest then Some(key) else Successor(s, k)
      ensures Predecessor(Placed(s, key, Some(dest)), k) == if Successor(s, dest) == Some(k) then Some(key) else Predecessor(s, k)
    {
      PlacedNeighbours(s, key, dest, k);
    }
  }

  /** With a stale back link, the chain restarts behind the key. */
  lemma {:induction false} StaleCut(w: Wiring, s: seq<Key>, stale: set<Key>, key: Key)
    requires Links(w, s, stale) && key in stale
    ensures Cut(w, key).1 == Ok && Cut(w, key).0.first == Successor(s, key)
    ensures Chain(Cut(w, key).0.first, Cut(w, key).0.after, Behind(s, key))
    ensures forall k :: Some(k) in Cut(w, key).0.before <==> k in s && k != key
    ensures forall k :: k in Cut(w, key).0.after <==> k in s && k != key
  {
    hide Successor, Predecessor, Without, Placed, Distinct, Last, Behind;
    BehindNeighbours(s, key);
    NeighbourMembers(s, key);
  }

  // ---------------------------------------------------------------- the operations on a dict that stands for a queue

  lemma {:induction false} SetHolds(d: Dict, q: Queue, key: Key, value: Option<Value>, repair: bool)
    requires Holds(d, q, repair)
    ensures Holds(SetDict(d, key, value, repair).0, DoSet(q, key, value).0, repair)
    ensures SetDict(d, key, value, repair).1 == DoSet(q, key, value).1
  {
    hide Successor, Predecessor, Placed, Distinct, Last, Links;
    LinksFacts(d.links, q.order, q.stale);
    if key !in q.order && ValueIn(d.data, key).None? {
      AppendedAtEnd(q.order, key);
      if q.order == [] {
        TieFrontLinks(d.links, q.order, q.stale, key);
        assert q.stale + Elem(Head(q.order)) == q.stale;
      } else {
        var l := Last(q.order).value;
        TieBehindLinks(d.links, q.order, q.stale, key, l, repair);
        assert q.stale - Elem(Successor(q.order, l)) == q.stale;
      }
    }
  }

  lemma {:induction false} PopHolds(d: Dict, q: Queue, key: Key, repair: bool)
    requires Holds(d, q, repair) && key !in q.stale
    ensures Holds(PopDict(d, key).0, DoPop(q, key).0, repair) && PopDict(d, key).1 == DoPop(q, key).1
  {
    hide Successor, Predecessor, Without, Distinct, Last, Links;
    LinksFacts(d.links, q.order, q.stale);
    if key in q.order {
      CutLinks(d.links, q.order, q.stale, key);
      WithoutMembers(q.order, key);
    }
  }

  lemma {:induction false} MvHolds(d: Dict, q: Queue, key: Key, dest: Option<Key>, repair: bool)
    requires Holds(d, q, repair) && Exact(q, Mv(key, dest))
    ensures Holds(MvDict(d, key, dest, repair).0, DoMv(q, key, dest, repair).0, repair)
    ensures MvDict(d, key, dest, repair).1 == DoMv(q, key, dest, repair).1
  {
    hide Successor, Predecessor, Without, Placed, Distinct, Last, Links, Cut, Tie;
    LinksFacts(d.links, q.order, q.stale);
    CutRejected(d.links, key);
    if key in q.order && (dest.Some? ==> dest.value in q.order) {
      CutLinks(d.links, q.order, q.stale, key);
      WithoutMembers(q.order, key);
      var u := Unlinked(q, key);
      var w := Cut(d.links, key).0;
      LinksFacts(w, u.order, u.stale);
      if dest.None? {
        TieFrontLinks(w, u.order, u.stale, key);
        PlacedMembers(u.order, key, dest);
      } else if dest.value in u.order {
        TieBehindLinks(w, u.order, u.stale, key, dest.value, repair);
        PlacedMembers(u.order, key, dest);
      } else {
        TieRejected(w, key, dest.value, repair);
      }
    }
  }

  lemma CutRejected(w: Wiring, key: Key)
    ensures Some(key) !in w.before || key !in w.after ==> Cut(w, key) == (w, KeyError)
  {
  }

  lemma TieRejected(w: Wiring, key: Key, a: Key, repair: bool)
    requires Some(key) !in w.before && a !in w.after
    ensures Tie(w, key, Some(a), repair) == (w, KeyError)
  {
  }

  // ---------------------------------------------------------------- unlinking a stale key

  lemma ShownEnds(d: Dict, items: seq<Entry>)
    requires Shows(d, items)
    ensures d.links.first == if items == [] then None else Some(items[0].key)
    ensures items != [] ==> Next(d.links.after, items[0].key) == if |items| == 1 then None else Some(items[1].key)
  {
    var n: nat :| Cursor(d.links.first, d.links.after, n).None? && Listing(d.links.first, d, n) == items;
    if d.links.first.Some? {
      var k := d.links.first.value;
      assert items == [Entry(k, ValueIn(d.data, k))] + Listing(Next(d.links.after, k), d, n - 1);
      assert items[1..] == Listing(Next(d.links.after, k), d, n - 1);
    }
  }

  /** The dict no longer lists what it should: the walk starts behind the key. */
  lemma {:induction false} StrandedPop(d: Dict, q: Queue, key: Key, repair: bool)
    requires Holds(d, q, repair) && key in q.stale
    ensures var r := PopDict(d, key).0;
            && Chain(r.links.first, r.links.after, Behind(q.order, key))
            && !Shows(r, Items(DoPop(q, key).0))
    ensures PopDict(d, key).1 == DoPop(q, key).1
  {
    hide Links, Shows, Chain, Distinct, Cut, Successor, Without, Behind, Predecessor;
    LinksFacts(d.links, q.order, q.stale);
    StaleCut(d.links, q.order, q.stale, key);
    StrandsTheFront(q.order, key, None);
    var r, q' := PopDict(d, key).0, DoPop(q, key).0;
    if Shows(r, Items(q')) {
      ShownEnds(r, Items(q'));
    }
  }

  lemma {:induction false} StrandedMv(d: Dict, q: Queue, key: Key, dest: Option<Key>, repair: bool)
    requires Holds(d, q, repair) && !Exact(q, Mv(key, dest))
    ensures MvDict(d, key, dest, repair).1 == DoMv(q, key, dest, repair).1
    ensures !Shows(MvDict(d, key, dest, repair).0, Items(DoMv(q, key, dest, repair).0))
  {
    hide Links, Shows, Chain, Distinct, Cut, Successor, Without, Behind, Predecessor;
    LinksFacts(d.links, q.order, q.stale);
    StaleCut(d.links, q.order, q.stale, key);
    WithoutMembers(q.order, key);
    StrandsTheFront(q.order, key, dest);
    var r, q' := MvDict(d, key, dest, repair).0, DoMv(q, key, dest, repair).0;
    if Shows(r, Items(q')) {
      ShownEnds(r, Items(q'));
    }
  }
}
