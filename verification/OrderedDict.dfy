/** The replicated ordered dict: a doubly linked order kept in two dicts and two end pointers. */
module OrderedDict {
  import opened Wrappers
  import opened QueueOrder
  import opened QueueLinks

  class CPOrderedReplDict {
    var data: map<Key, Option<Value>>
    var before: map<Option<Key>, Option<Key>>
    var after: map<Key, Option<Key>>
    var first: Option<Key>
    var last: Option<Key>
    /** Every pair of old and new value passed to the callback. */
    var changes: seq<(Option<Value>, Option<Value>)>
    /** False for the code as it stands; true for the code with the missing back link added. */
    const repair: bool

    /** The order the dict is meant to have, and the keys whose back link is stale. */
    ghost var order: seq<Key>
    ghost var stale: set<Key>

    function Raw(): Dict
      reads this
    {
      Dict(data, Wiring(before, after, first, last))
    }

    ghost function Abs(): Queue
      reads this
    {
      Queue(order, stale, data)
    }

    /** The links carry the order. */
    ghost predicate Valid()
      reads this
    {
      Holds(Raw(), Abs(), repair)
    }

    constructor (repair: bool)
      ensures Valid() && Raw() == NEW_DICT && Abs() == EMPTY && changes == [] && this.repair == repair
    {
      data, before, after, first, last := map[], map[], map[], None, None;
      changes := [];
      this.repair := repair;
      order, stale := [], {};
    }

    method Unlink(key: Key) returns (r: Outcome)
      modifies this`before, this`after, this`first, this`last
      ensures (Raw().links, r) == Cut(old(Raw()).links, key)
    {
      if Some(key) !in before || key !in after {
        return KeyError;
      }
      var prev := before[Some(key)];
      var nxt := after[key];
      if nxt.Some? {
        before := before[nxt := prev];
      }
      if prev.Some? {
        after := after[prev.value := nxt];
      }
      if before[Some(key)].None? {
        first := after[key];
      }
      if after[key].None? {
        last := before[Some(key)];
      }
      before := before - {Some(key)};
      after := after - {key};
      return Ok;
    }

    method Link(key: Key, dest: Option<Key>) returns (r: Outcome)
      modifies this`before, this`after, this`first, this`last
      ensures (Raw().links, r) == Tie(old(Raw()).links, key, dest, repair)
    {
      if Some(key) in before {
        return AssertionError;
      }
      if dest.None? {
        var oldFirst := first;
        after := after[key := first];
        before := before[Some(key) := None];
        first := Some(key);
        if last.None? {
          last := Some(key);
        }
        if repair && oldFirst.Some? {
          before := before[oldFirst := Some(key)];
        }
      } else {
        var a := dest.value;
        if a !in after {
          return KeyError;
        }
        var anxt := after[a];
        before := before[Some(key) := dest];
        after := after[a := Some(key)];
        before := before[anxt := Some(key)];
        after := after[key := anxt];
        if anxt.None? {
          last := Some(key);
        }
      }
      return Ok;
    }

    /** Sets a value; a key the dict does not know yet goes to the end. Storing over a None trips the
        assertion in the link step, after the value is stored. */
    method SetItem(key: Key, value: Option<Value>) returns (r: Outcome)
      modifies this
      ensures (Raw(), r) == SetDict(old(Raw()), key, value, repair) && data == old(data)[key := value]
      ensures changes == old(changes) + if r == Ok then [(ValueIn(old(data), key), value)] else []
      ensures old(Valid()) ==>
          && Valid() && (Abs(), r) == DoSet(old(Abs()), key, value)
          && order == if key in old(order) || ValueIn(old(data), key).Some? then old(order) else old(order) + [key]
    {
      hide Holds, Tie;
      ghost var d, q := Raw(), Abs();
      if Valid() {
        SetHolds(d, q, key, value, repair);
        order, stale := DoSet(q, key, value).0.order, DoSet(q, key, value).0.stale;
      }
      var prev: Option<Value> := None;
      if key in data {
        prev := data[key];
      }
      data := data[key := value];
      r := Ok;
      if prev.None? {
        r := Link(key, last);
        if r != Ok {
          return r;
        }
      }
      changes := changes + [(prev, value)];
    }

    /** Deletes a key. With an exact back link exactly that key leaves the order; with a stale one the
        chain restarts behind it, and the walk no longer lists what it should. */
    method Pop(key: Key) returns (r: Outcome, val: Option<Value>)
      modifies this
      ensures (Raw(), r) == PopDict(old(Raw()), key) && data == old(data) - {key}
      ensures val == if r == Ok then ValueIn(old(data), key) else None
      ensures changes == old(changes) + if r == Ok && key in old(data) then [(ValueIn(old(data), key), None)] else []
      ensures old(Valid()) ==>
          && (Abs(), r) == DoPop(old(Abs()), key)
          && order == (if key in old(data) && key in old(order) then Without(old(order), key) else old(order))
          && (Valid() <==> key !in old(stale))
          && (key in old(stale) ==> !Shows(Raw(), Items(Abs())) && Chain(first, after, Behind(old(order), key)))
    {
      hide Holds, Cut, Shows, Chain, Behind, Unlinked;
      ghost var d, q := Raw(), Abs();
      ghost var valid := Valid();
      if valid {
        PopOutcome(d, q, key, repair);
        PopData(d, q, key);
        order, stale := DoPop(q, key).0.order, DoPop(q, key).0.stale;
      }
      if key !in data {
        return Ok, None;
      }
      var v := data[key];
      data := data - {key};
      r := Unlink(key);
      if r != Ok {
        return r, None;
      }
      changes := changes + [(v, None)];
      return Ok, v;
    }

    /** Moves a key behind another or in front. */
    method Mv(key: Key, dest: Option<Key>) returns (r: Outcome)
      modifies this`before, this`after, this`first, this`last, this`order, this`stale
      ensures (Raw(), r) == MvDict(old(Raw()), key, dest, repair)
      ensures old(Valid()) ==>
          && (Abs(), r) == DoMv(old(Abs()), key, dest, repair)
          && (Valid() <==> Exact(old(Abs()), Op.Mv(key, dest)))
          && (!Valid() ==> !Shows(Raw(), Items(Abs())))
    {
      hide Holds, Tie, Shows, Unlinked, Exact;
      ghost var d, q := Raw(), Abs();
      if Valid() {
        MvOutcome(d, q, key, dest, repair);
        order, stale := DoMv(q, key, dest, repair).0.order, DoMv(q, key, dest, repair).0.stale;
      }
      if dest.Some? && Some(dest.value) !in before {
        return KeyError;
      }
      r := Unlink(key);
      if r != Ok {
        return r;
      }
      r := Link(key, dest);
    }

    /** Walks the links from the front, in any state in which that comes to an end. */
    method OrderedItems() returns (items: seq<Entry>)
      requires Ends(Raw().links)
      ensures Shows(Raw(), items)
      ensures Valid() ==> items == Items(Abs())
    {
      ghost var n: nat :| Cursor(first, after, n).None?;
      ghost var left := n;
      items := [];
      var nxt := first;
      while nxt.Some?
        invariant Cursor(nxt, after, left).None?
        invariant Listing(first, Raw(), n) == items + Listing(nxt, Raw(), left)
        decreases left
      {
        items := items + [Entry(nxt.value, if nxt.value in data then data[nxt.value] else None)];
        nxt := if nxt.value in after then after[nxt.value] else None;
        left := left - 1;
      }
      if Valid() {
        HoldsShows(Raw(), Abs(), repair);
        ListingSettles(first, Raw(), n, |order|);
      }
    }
  }

  lemma PopOutcome(d: Dict, q: Queue, key: Key, repair: bool)
    requires Holds(d, q, repair)
    ensures var r, q' := PopDict(d, key), DoPop(q, key);
            && r.1 == q'.1 && r.0.data == q'.0.data
            && (Holds(r.0, q'.0, repair) <==> key !in q.stale)
            && (key in q.stale ==>
                  key in q.order && !Shows(r.0, Items(q'.0)) && Chain(r.0.links.first, r.0.links.after, Behind(q.order, key)))
  {
    hide PopDict, DoPop, Shows, Chain, Behind, Items;
    if key in q.stale {
      StrandedPop(d, q, key, repair);
      if Holds(PopDict(d, key).0, DoPop(q, key).0, repair) {
        HoldsShows(PopDict(d, key).0, DoPop(q, key).0, repair);
      }
    } else {
      PopHolds(d, q, key, repair);
    }
    PopData(d, q, key);
  }

  lemma PopData(d: Dict, q: Queue, key: Key)
    requires d.data == q.data
    ensures PopDict(d, key).0.data == DoPop(q, key).0.data
    ensures DoPop(q, key).0.order == if key in q.data && key in q.order then Without(q.order, key) else q.order
  {
  }

  lemma MvOutcome(d: Dict, q: Queue, key: Key, dest: Option<Key>, repair: bool)
    requires Holds(d, q, repair)
    ensures var r, q' := MvDict(d, key, dest, repair), DoMv(q, key, dest, repair);
            && r.1 == q'.1 && r.0.data == q'.0.data
            && (Holds(r.0, q'.0, repair) <==> Exact(q, Op.Mv(key, dest)))
            && (!Exact(q, Op.Mv(key, dest)) ==> !Shows(r.0, Items(q'.0)))
  {
    hide Shows, Items, Exact, Links;
    if Exact(q, Op.Mv(key, dest)) {
      MvHolds(d, q, key, dest, repair);
    } else {
      StrandedMv(d, q, key, dest, repair);
      if Holds(MvDict(d, key, dest, repair).0, DoMv(q, key, dest, repair).0, repair) {
        HoldsShows(MvDict(d, key, dest, repair).0, DoMv(q, key, dest, repair).0, repair);
      }
    }
  }

  // ---------------------------------------------------------------- two ways a front insert goes wrong

  /** After sending the last of four to the front, deleting the old head hides the new one: it stays in
      the data but is no longer in the chain. */
  method FrontThenPop(dict: CPOrderedReplDict, a: Key, b: Key, c: Key, d: Key)
    requires dict.Valid() && !dict.repair && dict.order == [a, b, c, d] && dict.stale == {}
    modifies dict
    ensures d in dict.data && Chain(dict.first, dict.after, [b, c])
  {
    hide Without, Placed, Index, Behind, Chain;
    FourKeys(a, b, c, d, dict.data);
    assert d in dict.order && a in dict.order;
    assert d != a;
    var r := dict.Mv(d, None);
    var val;
    r, val := dict.Pop(a);
  }

  /** Sending the last to the front, moving the old head behind it and deleting the new head leaves the
      old head linked to itself: the listing never ends. */
  method FrontThenLoop(dict: CPOrderedReplDict, a: Key, b: Key, c: Key, d: Key)
    requires dict.Valid() && !dict.repair && dict.order == [a, b, c, d] && dict.stale == {}
    modifies dict
    ensures dict.first == Some(a) && !Ends(dict.Raw().links)
  {
    hide MvDict, PopDict, DoMv, DoPop, Holds, Shows, Exact, Chain, Behind, Items;
    LoopMade(dict.Raw(), a, b, c, d);
    assert dict.Abs() == Queue([a, b, c, d], {}, dict.data);
    var r := dict.Mv(d, None);
    r := dict.Mv(a, Some(d));
    var val;
    r, val := dict.Pop(d);
    forall n: nat ensures Cursor(dict.first, dict.after, n) == Some(a) {
      SelfLoop(dict.after, a, n);
    }
  }

  lemma LoopMade(dict: Dict, a: Key, b: Key, c: Key, d: Key)
    requires Holds(dict, Queue([a, b, c, d], {}, dict.data), false)
    ensures var d1 := MvDict(dict, d, None, false).0;
            var d2 := MvDict(d1, a, Some(d), false).0;
            var d3 := PopDict(d2, d).0;
            d3.links.first == Some(a) && Next(d3.links.after, a) == Some(a)
  {
    var s := [a, b, c, d];
    IndexUnique(s, 0);
    IndexUnique(s, 1);
    IndexUnique(s, 2);
    IndexUnique(s, 3);
    assert a in s && b in s && c in s && d in s && d in dict.data;
    assert s[0] != s[1] && s[0] != s[2] && s[0] != s[3] && s[1] != s[3] && s[2] != s[3];
    var w := dict.links;
    assert w.before[Some(a)] == None && w.after[a] == Some(b);
    assert w.before[Some(d)] == Some(c) && w.after[d] == None && w.first == Some(a);
    var w1 := Tie(Cut(w, d).0, d, None, false).0;
    assert w1.first == Some(d) && w1.after[d] == Some(a) && w1.after[a] == Some(b);
    assert w1.before[Some(d)] == None && w1.before[Some(a)] == None;
    var w2 := Tie(Cut(w1, a).0, a, Some(d), false).0;
    assert w2.after[a] == Some(a) && w2.after[d] == Some(a) && w2.before[Some(d)] == None;
  }
}
