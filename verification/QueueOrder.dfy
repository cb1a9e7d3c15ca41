/** The queue as a sequence and a map: what each operation of the replicated ordered dict should do,
    and the association list it is measured against. */
module QueueOrder {
  import opened Wrappers

  type Key(==, !new)
  type Value(==, !new)

  // ---------------------------------------------------------------- sequences of distinct keys

  ghost predicate Distinct(s: seq<Key>) {
    forall i, j | 0 <= i < j < |s| :: s[i] != s[j]
  }

  function Index(s: seq<Key>, k: Key): (i: nat)
    requires k in s
    ensures i < |s| && s[i] == k
  {
    if s[0] == k then 0 else 1 + Index(s[1..], k)
  }

  function Without(s: seq<Key>, k: Key): seq<Key>
    requires k in s
  {
    s[..Index(s, k)] + s[Index(s, k) + 1..]
  }

  /** `k` put right after `after`, or in front when `after` is None. */
  function Placed(s: seq<Key>, k: Key, after: Option<Key>): seq<Key>
    requires after.Some? ==> after.value in s
  {
    match after
    case None => [k] + s
    case Some(a) => s[..Index(s, a) + 1] + [k] + s[Index(s, a) + 1..]
  }

  function Head(s: seq<Key>): Option<Key> { if s == [] then None else Some(s[0]) }

  function Last(s: seq<Key>): Option<Key> { if s == [] then None else Some(s[|s| - 1]) }

  function NextAt(s: seq<Key>, i: nat): Option<Key>
    requires i < |s|
  {
    if i + 1 < |s| then Some(s[i + 1]) else None
  }

  function PrevAt(s: seq<Key>, i: nat): Option<Key>
    requires i < |s|
  {
    if i == 0 then None else Some(s[i - 1])
  }

  function Successor(s: seq<Key>, k: Key): Option<Key>
    requires k in s
  {
    NextAt(s, Index(s, k))
  }

  function Predecessor(s: seq<Key>, k: Key): Option<Key>
    requires k in s
  {
    PrevAt(s, Index(s, k))
  }

  function Elem(o: Option<Key>): set<Key> { if o.Some? then {o.value} else {} }

  lemma IndexUnique(s: seq<Key>, i: nat)
    requires Distinct(s) && i < |s|
    ensures Index(s, s[i]) == i
  {
  }

  lemma WithoutMembers(s: seq<Key>, k: Key)
    requires Distinct(s) && k in s
    ensures Distinct(Without(s, k)) && |Without(s, k)| == |s| - 1
    ensures forall x :: x in Without(s, k) <==> x in s && x != k
  {
    var i := Index(s, k);
    var t := Without(s, k);
    forall x ensures x in t <==> x in s && x != k {
      if x in s && x != k {
        var j := Index(s, x);
        assert t[if j < i then j else j - 1] == x;
      }
    }
  }

  lemma PlacedMembers(s: seq<Key>, k: Key, after: Option<Key>)
    requires Distinct(s) && k !in s && (after.Some? ==> after.value in s)
    ensures Distinct(Placed(s, k, after)) && |Placed(s, k, after)| == |s| + 1
    ensures forall x :: x in Placed(s, k, after) <==> x in s || x == k
  {
    var t := Placed(s, k, after);
    var i := if after.None? then 0 else Index(s, after.value) + 1;
    assert t == s[..i] + [k] + s[i..];
    forall x ensures x in t <==> x in s || x == k {
      if x in s {
        var j := Index(s, x);
        assert t[if j < i then j else j + 1] == x;
      } else if x == k {
        assert t[i] == x;
      }
    }
  }

  // ---------------------------------------------------------------- neighbours

  /** Following and preceding are the two directions of one relation. */
  lemma Adjacent(s: seq<Key>, x: Key, y: Key)
    requires Distinct(s) && x in s && y in s
    ensures Successor(s, x) == Some(y) <==> Predecessor(s, y) == Some(x)
    ensures Successor(s, x) == None <==> Last(s) == Some(x)
    ensures Predecessor(s, x) == None <==> Head(s) == Some(x)
  {
    IndexUnique(s, Index(s, y));
    if Index(s, x) + 1 < |s| {
      IndexUnique(s, Index(s, x) + 1);
    }
    if Index(s, y) > 0 {
      IndexUnique(s, Index(s, y) - 1);
    }
  }

  lemma NeighbourMembers(s: seq<Key>, k: Key)
    requires Distinct(s) && k in s
    ensures Successor(s, k).Some? ==> Successor(s, k).value in s && Successor(s, k).value != k
    ensures Predecessor(s, k).Some? ==> Predecessor(s, k).value in s && Predecessor(s, k).value != k
  {
  }

  lemma WithoutNeighbours(s: seq<Key>, k: Key, x: Key)
    requires Distinct(s) && k in s && x in s && x != k
    ensures x in Without(s, k)
    ensures Successor(Without(s, k), x) == if Successor(s, x) == Some(k) then Successor(s, k) else Successor(s, x)
    ensures Predecessor(Without(s, k), x) == if Predecessor(s, x) == Some(k) then Predecessor(s, k) else Predecessor(s, x)
  {
    WithoutMembers(s, k);
    var i, j := Index(s, k), Index(s, x);
    var t := Without(s, k);
    var m := if j < i then j else j - 1;
    assert t[m] == x;
    IndexUnique(t, m);
  }

  lemma WithoutEnds(s: seq<Key>, k: Key)
    requires Distinct(s) && k in s
    ensures Head(Without(s, k)) == if Head(s) == Some(k) then Successor(s, k) else Head(s)
    ensures Last(Without(s, k))
            == if Last(s) == Some(k) then Predecessor(s, k) else Last(s)
  {
    IndexUnique(s, 0);
    IndexUnique(s, |s| - 1);
  }

  lemma FrontNeighbours(s: seq<Key>, k: Key, x: Key)
    requires Distinct(s) && k !in s && x in s
    ensures x in Placed(s, k, None)
    ensures Successor(Placed(s, k, None), x) == Successor(s, x)
    ensures Predecessor(Placed(s, k, None), x) == if Head(s) == Some(x) then Some(k) else Predecessor(s, x)
  {
    var t := Placed(s, k, None);
    assert t[Index(s, x) + 1] == x;
    PlacedMembers(s, k, None);
    IndexUnique(t, Index(s, x) + 1);
    IndexUnique(s, 0);
  }

  lemma FrontSelf(s: seq<Key>, k: Key)
    requires Distinct(s) && k !in s
    ensures var t := Placed(s, k, None);
            && k in t && Successor(t, k) == Head(s) && Predecessor(t, k) == None
            && Head(t) == Some(k) && Last(t) == if Last(s).None? then Some(k) else Last(s)
    ensures s != [] ==> s[0] in s && Predecessor(s, s[0]) == None
  {
  }

  lemma PlacedNeighbours(s: seq<Key>, k: Key, a: Key, x: Key)
    requires Distinct(s) && k !in s && a in s && x in s
    ensures x in Placed(s, k, Some(a))
    ensures Successor(Placed(s, k, Some(a)), x) == if x == a then Some(k) else Successor(s, x)
    ensures Predecessor(Placed(s, k, Some(a)), x) == if Successor(s, a) == Some(x) then Some(k) else Predecessor(s, x)
  {
    PlacedMembers(s, k, Some(a));
    var i, j := Index(s, a), Index(s, x);
    var t := Placed(s, k, Some(a));
    var m := if j <= i then j else j + 1;
    assert t[m] == x;
    IndexUnique(t, m);
    Adjacent(s, a, x);
  }

  lemma PlacedSelf(s: seq<Key>, k: Key, a: Key)
    requires Distinct(s) && k !in s && a in s
    ensures var t := Placed(s, k, Some(a));
            && k in t && Successor(t, k) == Successor(s, a) && Predecessor(t, k) == Some(a)
            && Head(t) == Head(s)
            && Last(t) == if Successor(s, a) == None then Some(k) else Last(s)
  {
    PlacedMembers(s, k, Some(a));
    var t := Placed(s, k, Some(a));
    assert t[Index(s, a) + 1] == k;
    IndexUnique(t, Index(s, a) + 1);
  }

  // ---------------------------------------------------------------- what a move means

  /** `t` is `s` with `k` moved: `k` directly follows `after`, and apart from `k` nothing has moved. */
  ghost predicate IsMove(s: seq<Key>, t: seq<Key>, k: Key, after: Option<Key>) {
    && Distinct(t) && k in s && k in t
    && Without(t, k) == Without(s, k)
    && Predecessor(t, k) == after
  }

  /** Relinking is the one and only order with that meaning. */
  lemma {:induction false} MoveCharacterised(s: seq<Key>, t: seq<Key>, k: Key, after: Option<Key>)
    requires Distinct(s) && k in s
    requires after.Some? ==> after.value in s && after.value != k
    ensures after.Some? ==> after.value in Without(s, k)
    ensures IsMove(s, t, k, after) <==> t == Placed(Without(s, k), k, after)
  {
    WithoutMembers(s, k);
    var r := Without(s, k);
    PlacedMembers(r, k, after);
    var p := Placed(r, k, after);
    var i := if after.None? then 0 else Index(r, after.value) + 1;
    assert p[i] == k;
    IndexUnique(p, i);
    assert Without(p, k) == r;
    if IsMove(s, t, k, after) {
      var j := Index(t, k);
      assert t == t[..j] + [k] + t[j + 1..] && r == t[..j] + t[j + 1..];
      if after.Some? {
        assert r[j - 1] == after.value;
        IndexUnique(r, j - 1);
      }
      assert t == r[..j] + [k] + r[j..];
    }
  }

  /** A move can be undone by moving the key back behind its original predecessor. */
  lemma MoveUndone(s: seq<Key>, k: Key, after: Option<Key>)
    requires Distinct(s) && k in s
    requires after.Some? ==> after.value in s && after.value != k
    ensures after.Some? ==> after.value in Without(s, k)
    ensures var t := Placed(Without(s, k), k, after); var back := Predecessor(s, k);
            && Distinct(t) && k in t
            && (back.Some? ==> back.value in Without(t, k) && back.value != k)
            && Placed(Without(t, k), k, back) == s
  {
    var t := Placed(Without(s, k), k, after);
    var back := Predecessor(s, k);
    MoveCharacterised(s, t, k, after);
    WithoutMembers(s, k);
    if back.Some? {
      assert back.value in s && back.value != k;
    }
    MoveCharacterised(s, s, k, back);
  }

  // ---------------------------------------------------------------- the dict as a value

  /** `order` is the chain, `stale` the keys (never the first) whose back link is None although they
      have a predecessor, `data` the stored values (a stored None included). */
  datatype Queue = Queue(order: seq<Key>, stale: set<Key>, data: map<Key, Option<Value>>)

  const EMPTY := Queue([], {}, map[])

  datatype Outcome = Ok | KeyError | AssertionError

  datatype Op =
    | Set(key: Key, value: Option<Value>)
    | Pop(key: Key)
    | Mv(key: Key, after: Option<Key>)

  function Stored(q: Queue, k: Key): Option<Value> {
    if k in q.data then q.data[k] else None
  }

  function DoSet(q: Queue, k: Key, v: Option<Value>): (Queue, Outcome) {
    var r := q.(data := q.data[k := v]);
    if Stored(q, k).Some? then (r, Ok)
    else if k in q.order then (r, AssertionError)
    else (r.(order := q.order + [k]), Ok)
  }

  function Unlinked(q: Queue, k: Key): Queue
    requires k in q.order
  {
    q.(order := Without(q.order, k), stale := q.stale - Elem(Successor(q.order, k)))
  }

  function DoPop(q: Queue, k: Key): (Queue, Outcome) {
    if k !in q.data then (q, Ok)
    else if k !in q.order then (q.(data := q.data - {k}), KeyError)
    else (Unlinked(q.(data := q.data - {k}), k), Ok)
  }

  /** `repair` says whether inserting in front also links the old head back to the new one. */
  function DoMv(q: Queue, k: Key, after: Option<Key>, repair: bool): (Queue, Outcome) {
    if (after.Some? && after.value !in q.order) || k !in q.order then (q, KeyError)
    else
      var u := Unlinked(q, k);
      if after.Some? && after.value !in u.order then (u, KeyError)
      else
        (u.(order := Placed(u.order, k, after),
            stale := if after.Some? then u.stale - Elem(Successor(u.order, after.value))
                     else if repair then u.stale else u.stale + Elem(Head(u.order))), Ok)
  }

  function Do(q: Queue, op: Op, repair: bool): (Queue, Outcome) {
    match op
    case Set(k, v) => DoSet(q, k, v)
    case Pop(k) => DoPop(q, k)
    case Mv(k, after) => DoMv(q, k, after, repair)
  }

  /** An operation that unlinks a key relies on that key's back link. */
  predicate Touches(q: Queue, op: Op, k: Key) {
    match op
    case Set(_, _) => false
    case Pop(k2) => k2 == k && k in q.data
    case Mv(k2, after) => k2 == k && (after.Some? ==> after.value in q.order)
  }

  /** The operation does not unlink a key whose back link is stale. */
  predicate Exact(q: Queue, op: Op) {
    !op.Set? ==> !(Touches(q, op, op.key) && op.key in q.stale)
  }

  datatype Entry = Entry(key: Key, value: Option<Value>)

  /** The listing: the keys in order, each with its value. */
  function Items(q: Queue): seq<Entry> {
    seq(|q.order|, i requires 0 <= i < |q.order| => Entry(q.order[i], Stored(q, q.order[i])))
  }

  lemma AppendedAtEnd(s: seq<Key>, k: Key)
    requires Distinct(s) && k !in s
    ensures if s == [] then Last(s) == None
            else Last(s).Some? && Last(s).value in s && Successor(s, Last(s).value) == None
    ensures Placed(s, k, Last(s)) == s + [k]
  {
    if s != [] {
      IndexUnique(s, |s| - 1);
    }
  }

  /** A chain that restarts behind a key that was not the first has lost its front: it is neither the
      order without the key, nor the order with the key moved. */
  lemma StrandsTheFront(s: seq<Key>, k: Key, dest: Option<Key>)
    requires Distinct(s) && k in s && Head(s) != Some(k)
    ensures Head(Without(s, k)) != Successor(s, k)
    ensures dest.None? ==>
        k in Placed(Without(s, k), k, dest) && Successor(Placed(Without(s, k), k, dest), k) != Successor(s, k)
    ensures dest.Some? && dest.value in Without(s, k) ==>
        Head(Placed(Without(s, k), k, dest)) != Successor(s, k)
  {
    WithoutMembers(s, k);
    WithoutEnds(s, k);
    Adjacent(s, k, s[0]);
    FrontSelf(s[..0], k);
    Adjacent(s, s[0], s[0]);
    if dest.None? {
      FrontSelf(Without(s, k), k);
    } else if dest.value in Without(s, k) {
      PlacedSelf(Without(s, k), k, dest.value);
    }
  }

  /** What a chain that restarts behind `k` still shows. */
  function Behind(s: seq<Key>, k: Key): seq<Key>
    requires k in s
  {
    s[Index(s, k) + 1..]
  }

  lemma BehindNeighbours(s: seq<Key>, k: Key)
    requires Distinct(s) && k in s
    ensures Head(Behind(s, k)) == Successor(s, k)
    ensures forall x | x in Behind(s, k) :: x in s && x != k && Successor(Behind(s, k), x) == Successor(s, x)
  {
    var t := Behind(s, k);
    forall x | x in t ensures x in s && x != k && Successor(t, x) == Successor(s, x) {
      var i := Index(t, x);
      assert s[Index(s, k) + 1 + i] == x;
      IndexUnique(s, Index(s, k) + 1 + i);
    }
  }

  lemma FourKeys(a: Key, b: Key, c: Key, d: Key, data: map<Key, Option<Value>>)
    requires Distinct([a, b, c, d])
    ensures DoMv(Queue([a, b, c, d], {}, data), d, None, false) == (Queue([d, a, b, c], {a}, data), Ok)
    ensures Behind([d, a, b, c], a) == [b, c]
  {
    var s := [a, b, c, d];
    assert forall i, j | 0 <= i < j < 4 :: s[i] != s[j];
    assert s[0] != s[1] && s[0] != s[2] && s[0] != s[3] && s[1] != s[3] && s[2] != s[3];
    IndexUnique(s, 3);
    assert Without(s, d) == [a, b, c];
    assert Placed([a, b, c], d, None) == [d, a, b, c];
    assert Unlinked(Queue(s, {}, data), d) == Queue([a, b, c], {}, data);
    assert {} + Elem(Head([a, b, c])) == {a};
    assert Index([d, a, b, c], a) == 1;
  }
}
