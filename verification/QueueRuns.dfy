/** Whole runs of the ordered dict against an association list: one list of pairs, searched from the
    front, with no links, no indices and no stale keys. */
module QueueRuns {
  import opened Wrappers
  import opened QueueOrder

  // ---------------------------------------------------------------- the association list

  predicate Has(list: seq<Entry>, k: Key) {
    list != [] && (list[0].key == k || Has(list[1..], k))
  }

  function Find(list: seq<Entry>, k: Key): Entry
    requires Has(list, k)
  {
    if list[0].key == k then list[0] else Find(list[1..], k)
  }

  function Put(list: seq<Entry>, k: Key, v: Option<Value>): seq<Entry> {
    if list == [] then [Entry(k, v)]
    else if list[0].key == k then [Entry(k, v)] + list[1..]
    else [list[0]] + Put(list[1..], k, v)
  }

  function Drop(list: seq<Entry>, k: Key): seq<Entry> {
    if list == [] then []
    else if list[0].key == k then list[1..]
    else [list[0]] + Drop(list[1..], k)
  }

  function InsertBehind(list: seq<Entry>, e: Entry, a: Key): seq<Entry> {
    if list == [] then []
    else if list[0].key == a then [list[0], e] + list[1..]
    else [list[0]] + InsertBehind(list[1..], e, a)
  }

  /** Setting a new key appends, setting a known one keeps its place; popping removes; moving takes the
      entry out and puts it right behind another or in front; a move that names an absent key does
      nothing. */
  function ListDo(list: seq<Entry>, op: Op): seq<Entry> {
    match op
    case Set(k, v) => Put(list, k, v)
    case Pop(k) => Drop(list, k)
    case Mv(k, None) => if Has(list, k) then [Find(list, k)] + Drop(list, k) else list
    case Mv(k, Some(a)) =>
      if Has(list, k) && Has(list, a) then InsertBehind(Drop(list, k), Find(list, k), a) else list
  }

  function ListAfter(ops: seq<Op>, n: nat): seq<Entry>
    requires n <= |ops|
  {
    if n == 0 then [] else ListDo(ListAfter(ops, n - 1), ops[n - 1])
  }

  function QueueAfter(ops: seq<Op>, n: nat, repair: bool): Queue
    requires n <= |ops|
  {
    if n == 0 then EMPTY else Do(QueueAfter(ops, n - 1, repair), ops[n - 1], repair).0
  }

  // ---------------------------------------------------------------- one step

  /** Every stored value is a real value, and the chain holds every key of the data. */
  ghost predicate Complete(q: Queue) {
    && Distinct(q.order)
    && (forall k :: k in q.order <==> k in q.data)
    && (forall k | k in q.data :: q.data[k].Some?)
  }

  /** A caller never stores None and never moves a key behind itself. */
  predicate Plain(op: Op) {
    match op
    case Set(_, v) => v.Some?
    case Pop(_) => true
    case Mv(k, after) => after != Some(k)
  }

  function Zip(s: seq<Key>, data: map<Key, Option<Value>>): seq<Entry>
    requires forall k | k in s :: k in data
  {
    if s == [] then [] else [Entry(s[0], data[s[0]])] + Zip(s[1..], data)
  }

  lemma {:induction false} ZipItems(q: Queue)
    requires forall k | k in q.order :: k in q.data
    ensures Items(q) == Zip(q.order, q.data)
    decreases |q.order|
  {
    if q.order != [] {
      var rest := q.(order := q.order[1..]);
      ZipItems(rest);
      assert Items(q) == [Items(q)[0]] + Items(rest);
    }
  }

  lemma {:induction false} ZipHas(s: seq<Key>, data: map<Key, Option<Value>>, k: Key)
    requires forall x | x in s :: x in data
    ensures Has(Zip(s, data), k) <==> k in s
    ensures k in s ==> Find(Zip(s, data), k) == Entry(k, data[k])
  {
    if s != [] {
      ZipHas(s[1..], data, k);
    }
  }

  lemma {:induction false} ZipFrame(s: seq<Key>, data: map<Key, Option<Value>>, other: map<Key, Option<Value>>)
    requires forall x | x in s :: x in data && x in other && data[x] == other[x]
    ensures Zip(s, data) == Zip(s, other)
  {
    if s != [] {
      ZipFrame(s[1..], data, other);
    }
  }

  lemma {:induction false} ZipPut(s: seq<Key>, data: map<Key, Option<Value>>, k: Key, v: Option<Value>)
    requires Distinct(s) && forall x | x in s :: x in data
    ensures Put(Zip(s, data), k, v) == Zip(if k in s then s else s + [k], data[k := v])
  {
    if s == [] {
      assert Zip([k], data[k := v]) == [Entry(k, v)];
    } else if s[0] == k {
      ZipFrame(s[1..], data, data[k := v]);
    } else {
      ZipPut(s[1..], data, k, v);
      if k !in s {
        assert (s + [k])[1..] == s[1..] + [k];
      }
    }
  }

  lemma WithoutTail(s: seq<Key>, k: Key)
    requires k in s
    ensures forall x | x in Without(s, k) :: x in s
    ensures s[0] == k ==> Without(s, k) == s[1..]
    ensures s[0] != k ==> k in s[1..] && Without(s, k) == [s[0]] + Without(s[1..], k)
  {
    if s[0] != k {
      assert Index(s, k) == 1 + Index(s[1..], k);
    }
  }

  lemma {:induction false} ZipDrop(s: seq<Key>, data: map<Key, Option<Value>>, k: Key)
    requires forall x | x in s :: x in data
    ensures k in s ==> forall x | x in Without(s, k) :: x in data
    ensures Drop(Zip(s, data), k) == Zip(if k in s then Without(s, k) else s, data)
  {
    hide Without;
    if s != [] {
      if k in s {
        WithoutTail(s, k);
      }
      if s[0] != k {
        ZipDrop(s[1..], data, k);
        if k in s {
          assert Without(s, k)[1..] == Without(s[1..], k);
        }
      }
    }
  }

  lemma {:induction false} ZipInsert(s: seq<Key>, data: map<Key, Option<Value>>, k: Key, a: Key)
    requires a in s && k in data && forall x | x in s :: x in data
    ensures forall x | x in Placed(s, k, Some(a)) :: x in data
    ensures InsertBehind(Zip(s, data), Entry(k, data[k]), a) == Zip(Placed(s, k, Some(a)), data)
  {
    var t := Placed(s, k, Some(a));
    if s[0] == a {
      assert t == [a, k] + s[1..];
      assert t[1..] == [k] + s[1..] && t[1..][1..] == s[1..];
    } else {
      ZipInsert(s[1..], data, k, a);
      assert t == [s[0]] + Placed(s[1..], k, Some(a));
      assert t[1..] == Placed(s[1..], k, Some(a));
    }
  }

  lemma {:induction false} SetRefines(q: Queue, k: Key, v: Option<Value>)
    requires Complete(q) && v.Some?
    ensures Complete(DoSet(q, k, v).0) && DoSet(q, k, v).1 == Ok
    ensures Items(DoSet(q, k, v).0) == Put(Items(q), k, v)
  {
    ZipItems(q);
    ZipPut(q.order, q.data, k, v);
    ZipItems(DoSet(q, k, v).0);
  }

  lemma PopRefines(q: Queue, k: Key)
    requires Complete(q)
    ensures Complete(DoPop(q, k).0) && DoPop(q, k).1 == Ok
    ensures Items(DoPop(q, k).0) == Drop(Items(q), k)
  {
    hide Without;
    var r := DoPop(q, k).0;
    ZipItems(q);
    ZipDrop(q.order, q.data, k);
    if k in q.order {
      WithoutMembers(q.order, k);
      ZipFrame(r.order, q.data, r.data);
    }
    ZipItems(r);
  }

  lemma {:induction false} ZipMove(s: seq<Key>, data: map<Key, Option<Value>>, k: Key, after: Option<Key>)
    requires Distinct(s) && k in s && after != Some(k) && (after.Some? ==> after.value in s)
    requires forall x | x in s :: x in data
    ensures after.Some? ==> after.value in Without(s, k)
    ensures var t := Placed(Without(s, k), k, after);
            && Distinct(t) && (forall x :: x in t <==> x in s)
            && Zip(t, data) == ListDo(Zip(s, data), Mv(k, after))
  {
    hide Without, Distinct, Has, Find, Drop, InsertBehind;
    ZipHas(s, data, k);
    WithoutMembers(s, k);
    ZipDrop(s, data, k);
    var r := Without(s, k);
    PlacedMembers(r, k, after);
    if after.Some? {
      ZipHas(s, data, after.value);
      ZipInsert(r, data, k, after.value);
    } else {
      assert Placed(r, k, after)[1..] == r;
    }
  }

  lemma {:induction false} MvRefines(q: Queue, k: Key, after: Option<Key>, repair: bool)
    requires Complete(q) && after != Some(k)
    ensures Complete(DoMv(q, k, after, repair).0)
    ensures Items(DoMv(q, k, after, repair).0) == ListDo(Items(q), Mv(k, after))
    ensures DoMv(q, k, after, repair).1 == Ok <==> Has(Items(q), k) && (after.Some? ==> Has(Items(q), after.value))
  {
    hide Without, Placed, Distinct, Items, Zip;
    ZipItems(q);
    ZipHas(q.order, q.data, k);
    if after.Some? {
      ZipHas(q.order, q.data, after.value);
    }
    if k in q.order && (after.Some? ==> after.value in q.order) {
      ZipMove(q.order, q.data, k, after);
    }
    ZipItems(DoMv(q, k, after, repair).0);
  }

  /** One operation, whichever version of the front insert is in use. */
  lemma StepRefines(q: Queue, op: Op, repair: bool)
    requires Complete(q) && Plain(op)
    ensures Complete(Do(q, op, repair).0)
    ensures Items(Do(q, op, repair).0) == ListDo(Items(q), op)
    ensures Do(q, op, repair).1 == Ok <==>
        (op.Mv? ==> Has(Items(q), op.key) && (op.after.Some? ==> Has(Items(q), op.after.value)))
  {
    hide Complete, Items;
    match op {
      case Set(k, v) => SetRefines(q, k, v);
      case Pop(k) => PopRefines(q, k);
      case Mv(k, after) => MvRefines(q, k, after, repair);
    }
  }

  /** A rejected operation changes nothing, except exactly three: setting a value over a stored None,
      popping a key the chain has lost, and moving a key behind itself. */
  lemma RejectedUnchanged(q: Queue, op: Op, repair: bool)
    requires Distinct(q.order) && (forall k | k in q.order :: k in q.data) && Do(q, op, repair).1 != Ok
    ensures Do(q, op, repair).0 == q <==>
        match op
        case Set(_, v) => v == None
        case Pop(_) => false
        case Mv(k, after) => !(k in q.order && after == Some(k))
  {
    if op.Set? {
      assert q.data[op.key := None] == q.data;
    } else if op.Mv? && op.key in q.order {
      WithoutMembers(q.order, op.key);
    }
  }

  // ---------------------------------------------------------------- whole runs

  /** Any plain run of the intended operations lists exactly what the association list holds. */
  lemma {:induction false} RunRefines(ops: seq<Op>, n: nat, repair: bool)
    requires n <= |ops| && forall i | 0 <= i < n :: Plain(ops[i])
    ensures Complete(QueueAfter(ops, n, repair))
    ensures Items(QueueAfter(ops, n, repair)) == ListAfter(ops, n)
  {
    hide Complete, Items, Do, ListDo, Plain;
    if n > 0 {
      RunRefines(ops, n - 1, repair);
      StepRefines(QueueAfter(ops, n - 1, repair), ops[n - 1], repair);
    } else {
      EmptyComplete();
    }
  }

  lemma EmptyComplete()
    ensures Complete(EMPTY) && Items(EMPTY) == []
  {
  }

  /** Only an insert in front makes a key stale, and then it is the old head; with the missing link
      added, no key ever is. */
  lemma StaleOrigin(q: Queue, op: Op, repair: bool)
    ensures var r := Do(q, op, repair).0;
            forall k | k in r.stale && k !in q.stale ::
              !repair && op.Mv? && op.after.None? && op.key in q.order && Some(k) == Head(Without(q.order, op.key))
  {
  }

  lemma {:induction false} NeverStale(ops: seq<Op>, n: nat, repair: bool)
    requires n <= |ops|
    requires repair || forall i | 0 <= i < n :: !(ops[i].Mv? && ops[i].after.None?)
    ensures QueueAfter(ops, n, repair).stale == {}
  {
    if n > 0 {
      NeverStale(ops, n - 1, repair);
      StaleOrigin(QueueAfter(ops, n - 1, repair), ops[n - 1], repair);
    }
  }

  /** The runs in which the linked structure performs the intended operations. */
  ghost predicate Careful(ops: seq<Op>, repair: bool) {
    forall i | 0 <= i < |ops| :: Plain(ops[i]) && Exact(QueueAfter(ops, i, repair), ops[i])
  }

  /** With the missing back link added every plain run is careful; so is every plain run of the code as
      it stands that never sends a key to the front. */
  lemma PlainIsCareful(ops: seq<Op>, repair: bool)
    requires forall i | 0 <= i < |ops| :: Plain(ops[i])
    requires repair || forall i | 0 <= i < |ops| :: !(ops[i].Mv? && ops[i].after.None?)
    ensures Careful(ops, repair)
  {
    forall i | 0 <= i < |ops| ensures Exact(QueueAfter(ops, i, repair), ops[i]) {
      NeverStale(ops, i, repair);
    }
  }

  /** Moving a key and moving it back behind its old predecessor restores order and data in either
      version, as long as its back link was exact; with the missing link added it restores everything. */
  lemma {:induction false} MoveRoundTrip(q: Queue, k: Key, after: Option<Key>, repair: bool)
    requires Distinct(q.order) && k in q.order && k !in q.stale && after != Some(k)
    requires after.Some? ==> after.value in q.order
    ensures var (r, o) := DoMv(q, k, after, repair);
            var (b, p) := DoMv(r, k, Predecessor(q.order, k), repair);
            && o == Ok && p == Ok && k !in r.stale
            && b.order == q.order && b.data == q.data
            && (repair && q.stale == {} ==> b == q)
  {
    hide Without, Placed, Distinct, Successor, Predecessor;
    MoveUndone(q.order, k, after);
    WithoutMembers(q.order, k);
    NeighbourMembers(q.order, k);
    PlacedMembers(Without(q.order, k), k, after);
    WithoutMembers(Placed(Without(q.order, k), k, after), k);
  }

  /** The listing names every key of the data map exactly once. */
  lemma ListedOnce(q: Queue)
    requires Complete(q)
    ensures |Items(q)| == |q.data|
    ensures forall k | k in q.data :: exists i :: 0 <= i < |Items(q)| && Items(q)[i] == Entry(k, q.data[k])
    ensures forall i, j | 0 <= i < j < |Items(q)| :: Items(q)[i].key != Items(q)[j].key
  {
    forall k | k in q.data ensures exists i :: 0 <= i < |Items(q)| && Items(q)[i] == Entry(k, q.data[k]) {
      assert Items(q)[Index(q.order, k)] == Entry(k, q.data[k]);
    }
    DistinctCount(q.order);
    assert q.data.Keys == set k | k in q.order;
  }

  lemma {:induction false} DistinctCount(s: seq<Key>)
    requires Distinct(s)
    ensures |set k | k in s| == |s|
  {
    if s != [] {
      DistinctCount(s[1..]);
      assert (set k | k in s) == (set k | k in s[1..]) + {s[0]};
    }
  }
}
