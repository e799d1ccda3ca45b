/**
  The bounded list of meter values for StopTransaction.req: sessionHandler_OcppTransferMeterValues
  in main/sessionHandler.c.
 */
module MeterValueList {
  import opened Optional

  // ----- the specification

  /** The values in the list, and the position of the node whose successor was deleted last. */
  datatype Shape<T> = Shape(values: seq<T>, cursor: Option<nat>) {
    ghost predicate Valid() { cursor.Some? ==> cursor.value < |values| }
  }

  /** Where the next of `n` is deleted: behind the node after the cursor, or from the start again at the end. */
  function NextPosition(n: nat, cursor: Option<nat>): nat {
    if cursor.None? || cursor.value + 2 >= n then 0 else cursor.value + 1
  }

  function NextCursor<T>(s: Shape<T>): nat {
    NextPosition(|s.values|, s.cursor)
  }

  function DropOne<T>(s: Shape<T>): (r: Shape<T>)
    requires s.values != []
    ensures |r.values| == |s.values| - 1
  {
    var c := NextCursor(s);
    if |s.values| == 1 then Shape([], None)
    else Shape(s.values[..c + 1] + s.values[c + 2..], Some(c))
  }

  function Thin<T>(s: Shape<T>, max: nat): Shape<T>
    decreases |s.values|
  {
    if |s.values| <= max then s else Thin(DropOne(s), max)
  }

  function Transfer<T>(s: Shape<T>, values: seq<T>, max: nat): Shape<T> {
    Thin(Shape(s.values + values, s.cursor), max)
  }

  /** Positions in the old list of the values that remain: increasing, and the first is kept. */
  ghost predicate Selects<T>(all: seq<T>, kept: seq<T>, at: seq<nat>) {
    && |at| == |kept|
    && (forall i | 0 <= i < |at| :: at[i] < |all| && kept[i] == all[at[i]])
    && (forall i, j | 0 <= i < j < |at| :: at[i] < at[j])
  }

  lemma DropSelects<T>(s: Shape<T>) returns (at: seq<nat>)
    requires |s.values| > 1
    ensures Selects(s.values, DropOne(s).values, at) && at != [] && at[0] == 0
  {
    var c := NextCursor(s);
    at := seq(|s.values| - 1, i requires 0 <= i => if i <= c then i else i + 1);
  }

  lemma Compose<T>(all: seq<T>, mid: seq<T>, kept: seq<T>, a: seq<nat>, b: seq<nat>) returns (at: seq<nat>)
    requires Selects(all, mid, a) && Selects(mid, kept, b)
    ensures Selects(all, kept, at)
    ensures a != [] && a[0] == 0 && b != [] && b[0] == 0 ==> at != [] && at[0] == 0
  {
    at := seq(|b|, i requires 0 <= i < |b| => a[b[i]]);
  }

  /** An order-preserving selection that keeps the first value. */
  ghost predicate Keeps<T>(all: seq<T>, kept: seq<T>) {
    exists at: seq<nat> :: Selects(all, kept, at) && (all != [] ==> at != [] && at[0] == 0)
  }

  lemma {:induction false} ThinSelects<T>(s: Shape<T>, max: nat)
    requires s.Valid() && max >= 1
    ensures var r := Thin(s, max);
            && r.Valid()
            && |r.values| == (if |s.values| <= max then |s.values| else max)
            && Keeps(s.values, r.values)
    decreases |s.values|
  {
    if |s.values| <= max {
      var at := seq(|s.values|, i => i);
      assert Selects(s.values, s.values, at);
    } else {
      var d, r := DropOne(s).values, Thin(s, max).values;
      var first := DropSelects(s);
      ThinSelects(DropOne(s), max);
      var rest: seq<nat> :| Selects(d, r, rest) && (d != [] ==> rest != [] && rest[0] == 0);
      var at := Compose(s.values, d, r, first, rest);
    }
  }

  /** What a transfer keeps: an order-preserving selection that starts with the first value, as long as fits. */
  lemma TransferKeeps<T>(s: Shape<T>, values: seq<T>, max: nat)
    requires s.Valid() && max >= 1
    ensures var all, r := s.values + values, Transfer(s, values, max);
            && r.Valid()
            && |r.values| == (if |all| <= max then |all| else max)
            && Keeps(all, r.values)
            && (all != [] ==> r.values[0] == all[0])
  {
    ThinSelects(Shape(s.values + values, s.cursor), max);
  }

  // ----- a whole transaction

  /** What a transaction holds after any transfers. */
  function Gather<T>(transfers: seq<seq<T>>, max: nat): Shape<T> {
    if transfers == [] then Shape([], None)
    else Transfer(Gather(transfers[..|transfers| - 1], max), transfers[|transfers| - 1], max)
  }

  function All<T>(transfers: seq<seq<T>>): seq<T> {
    if transfers == [] then [] else All(transfers[..|transfers| - 1]) + transfers[|transfers| - 1]
  }

  lemma SelectsAppended<T>(all: seq<T>, kept: seq<T>, at: seq<nat>, more: seq<T>) returns (r: seq<nat>)
    requires Selects(all, kept, at)
    ensures Selects(all + more, kept + more, r)
    ensures (all != [] ==> at != [] && at[0] == 0) && all + more != [] ==> r != [] && r[0] == 0
  {
    r := at + seq(|more|, i => |all| + i);
  }

  lemma SelectsThrough<T>(all: seq<T>, mid: seq<T>, more: seq<T>, kept: seq<T>)
    requires Keeps(all, mid) && Keeps(mid + more, kept)
    ensures Keeps(all + more, kept)
  {
    var before: seq<nat> :| Selects(all, mid, before) && (all != [] ==> before != [] && before[0] == 0);
    var now: seq<nat> :|
      Selects(mid + more, kept, now) && (mid + more != [] ==> now != [] && now[0] == 0);
    var joined := SelectsAppended(all, mid, before, more);
    var at := Compose(all + more, mid + more, kept, joined, now);
  }

  /** Whatever was transferred: an order-preserving selection of it all, as long as fits, that keeps the first value. */
  lemma {:induction false} GatherSelects<T>(transfers: seq<seq<T>>, max: nat)
    requires max >= 1
    ensures var all, r := All(transfers), Gather(transfers, max);
            && r.Valid()
            && |r.values| == (if |all| <= max then |all| else max)
            && Keeps(all, r.values)
            && (all != [] ==> r.values[0] == all[0])
  {
    if transfers == [] {
      assert Selects(All(transfers), Gather(transfers, max).values, []);
    } else {
      var front, last := transfers[..|transfers| - 1], transfers[|transfers| - 1];
      var s := Gather(front, max);
      hide Transfer, Keeps;
      GatherSelects(front, max);
      TransferKeeps(s, last, max);
      SelectsThrough(All(front), s.values, last, Transfer(s, last, max).values);
      KeepsFirst(All(transfers), Gather(transfers, max).values);
    }
  }

  lemma KeepsFirst<T>(all: seq<T>, kept: seq<T>)
    requires Keeps(all, kept)
    ensures all != [] ==> kept != [] && kept[0] == all[0]
  {}

  // ----- the values that are lost

  /** Whether thinning `n` values to `max`, with the given cursor, deletes the one at position `p`. */
  predicate Deletes(p: nat, n: nat, cursor: Option<nat>, max: nat)
    decreases n
  {
    n > max && (n <= 1 ||
                var c := NextPosition(n, cursor);
                p == c + 1 || Deletes(if p > c + 1 then p - 1 else p, n - 1, Some(c), max))
  }

  predicate DeletesLast(n: nat, cursor: Option<nat>, max: nat) {
    n > 0 && Deletes(n - 1, n, cursor, max)
  }

  /** No other value of the list equals the one at position `p`. */
  ghost predicate Unique<T>(values: seq<T>, p: nat) {
    p < |values| && forall i | 0 <= i < |values| && i != p :: values[i] != values[p]
  }

  lemma UniqueAfterDrop<T>(s: Shape<T>, p: nat)
    requires |s.values| > 1 && Unique(s.values, p)
    ensures var c, r := NextCursor(s), DropOne(s).values;
            var q := if p > c + 1 then p - 1 else p;
            if p == c + 1 then s.values[p] !in r else Unique(r, q) && r[q] == s.values[p]
  {
    var c, r := NextCursor(s), DropOne(s).values;
    assert forall i | 0 <= i < |r| :: r[i] == s.values[if i <= c then i else i + 1];
  }

  /** Which value is lost depends only on its position, the number of values and the cursor. */
  lemma {:induction false} DeletesExactly<T>(s: Shape<T>, p: nat, max: nat)
    requires Unique(s.values, p)
    ensures s.values[p] !in Thin(s, max).values <==> Deletes(p, |s.values|, s.cursor, max)
    decreases |s.values|
  {
    if |s.values| > max {
      var c, d := NextCursor(s), DropOne(s);
      if |s.values| > 1 {
        UniqueAfterDrop(s, p);
        if p == c + 1 {
          ThinSubset(d, max);
        } else {
          DeletesExactly(d, if p > c + 1 then p - 1 else p, max);
        }
      } else {
        assert Thin(d, max).values == [];
      }
    }
  }

  lemma {:induction false} ThinSubset<T>(s: Shape<T>, max: nat)
    ensures forall x :: x in Thin(s, max).values ==> x in s.values
    decreases |s.values|
  {
    if |s.values| > max {
      ThinSubset(DropOne(s), max);
      DropOneSubset(s);
    }
  }

  /** The number of values in the list and the cursor. */
  datatype Place = Place(count: nat, cursor: Option<nat>)

  function Thinned(at: Place, max: nat): Place
    decreases at.count
  {
    if at.count <= max then at
    else Thinned(Place(at.count - 1, if at.count == 1 then None else Some(NextPosition(at.count, at.cursor))), max)
  }

  /** Where transfers of the given lengths leave the list, whatever they carry. */
  function Reached(lengths: seq<nat>, max: nat): Place {
    if lengths == [] then Place(0, None)
    else
      var before := Reached(lengths[..|lengths| - 1], max);
      Thinned(before.(count := before.count + lengths[|lengths| - 1]), max)
  }

  function Lengths<T>(transfers: seq<seq<T>>): seq<nat> {
    if transfers == [] then [] else Lengths(transfers[..|transfers| - 1]) + [|transfers[|transfers| - 1]|]
  }

  lemma {:induction false} ThinnedIs<T>(s: Shape<T>, max: nat)
    ensures var r := Thin(s, max); Place(|r.values|, r.cursor) == Thinned(Place(|s.values|, s.cursor), max)
    decreases |s.values|
  {
    if |s.values| > max {
      ThinnedIs(DropOne(s), max);
    }
  }

  lemma {:induction false} GatherReaches<T>(transfers: seq<seq<T>>, max: nat)
    ensures var r := Gather(transfers, max); Place(|r.values|, r.cursor) == Reached(Lengths(transfers), max)
  {
    if transfers != [] {
      var front, last := transfers[..|transfers| - 1], transfers[|transfers| - 1];
      var s := Gather(front, max);
      GatherReaches(front, max);
      assert Lengths(transfers)[..|Lengths(transfers)| - 1] == Lengths(front);
      ThinnedIs(Shape(s.values + last, s.cursor), max);
    }
  }

  /**
    Over a whole transaction with transfers of any lengths: the value that arrives last, such as the one taken at its
    end, is lost exactly when the lengths alone say so.
   */
  lemma NewestLostExactly<T>(transfers: seq<seq<T>>, last: seq<T>, max: nat)
    requires max >= 1 && last != [] && Unique(All(transfers) + last, |All(transfers)| + |last| - 1)
    ensures var at := Reached(Lengths(transfers), max);
            last[|last| - 1] !in Gather(transfers + [last], max).values
            <==> DeletesLast(at.count + |last|, at.cursor, max)
  {
    assert (transfers + [last])[..|transfers|] == transfers;
    hide All, Keeps, Unique, DeletesLast, Transfer, Reached, Lengths;
    var s := Gather(transfers, max);
    GatherSelects(transfers, max);
    GatherReaches(transfers, max);
    UniqueKept(All(transfers), s.values, last);
    TransferLosesLast(s, last, max);
  }

  lemma TransferLosesLast<T>(s: Shape<T>, values: seq<T>, max: nat)
    requires values != [] && Unique(s.values + values, |s.values| + |values| - 1)
    ensures values[|values| - 1] !in Transfer(s, values, max).values
            <==> DeletesLast(|s.values| + |values|, s.cursor, max)
  {
    var full := Shape(s.values + values, s.cursor);
    hide Unique;
    DeletesExactly(full, |full.values| - 1, max);
  }

  lemma UniqueKept<T>(all: seq<T>, kept: seq<T>, last: seq<T>)
    requires Keeps(all, kept) && last != [] && Unique(all + last, |all| + |last| - 1)
    ensures Unique(kept + last, |kept| + |last| - 1)
  {
    var at: seq<nat> :| Selects(all, kept, at) && (all != [] ==> at != [] && at[0] == 0);
    var full, p := kept + last, |kept| + |last| - 1;
    forall i | 0 <= i < |full| && i != p ensures full[i] != full[p] {
      var k := if i < |kept| then at[i] else |all| + i - |kept|;
      assert full[i] == (all + last)[k];
    }
  }

  /**
    A list thinned by less than its maximum loses its last value exactly when the cursor, going on in steps of two
    from where it is, meets it before enough values are gone.
   */
  predicate Meets(n: nat, cursor: Option<nat>, max: nat) {
    n > max && cursor.Some? && var c := cursor.value; n >= c + 3 && (n - c) % 2 == 1 && n + c + 1 >= 2 * max
  }

  lemma {:induction false} DeletesLastExactly(n: nat, cursor: Option<nat>, max: nat)
    requires n < 2 * max
    ensures DeletesLast(n, cursor, max) <==> Meets(n, cursor, max)
    decreases n
  {
    if n > max {
      DeletesLastExactly(n - 1, Some(NextPosition(n, cursor)), max);
    }
  }

  /** A transfer of fewer values than the maximum loses its last one exactly if the cursor meets it. */
  lemma TransferLosesLastExactly<T>(s: Shape<T>, values: seq<T>, max: nat)
    requires |s.values| <= max && 1 <= |values| < max && Unique(s.values + values, |s.values| + |values| - 1)
    ensures values[|values| - 1] !in Transfer(s, values, max).values <==> Meets(|s.values| + |values|, s.cursor, max)
  {
    TransferLosesLast(s, values, max);
    DeletesLastExactly(|s.values| + |values|, s.cursor, max);
  }

  /** Ten values, two at a time, and room for four: the tenth is lost although ten is no multiple of four. */
  lemma PairsLoseNewest()
    ensures 9 !in Gather([[0, 1], [2, 3], [4, 5], [6, 7], [8, 9]], 4).values && Rem(10, 4) != 0
  {
    var ts := [[0, 1], [2, 3], [4, 5], [6, 7]];
    assert ts + [[8, 9]] == [[0, 1], [2, 3], [4, 5], [6, 7], [8, 9]];
    PairsReach(ts);
    NewestLostExactly(ts, [8, 9], 4);
    DeletesLastExactly(6, Some(3), 4);
  }

  lemma PairsReach(ts: seq<seq<int>>)
    requires ts == [[0, 1], [2, 3], [4, 5], [6, 7]]
    ensures All(ts) == [0, 1, 2, 3, 4, 5, 6, 7] && Reached(Lengths(ts), 4) == Place(4, Some(3))
  {
    var a, b, c := ts[..1], ts[..2], ts[..3];
    assert c[..2] == b && b[..1] == a && a[..0] == [];
    assert All(ts) == [0, 1, 2, 3, 4, 5, 6, 7] by {
      assert All(a) == [0, 1] && All(b) == [0, 1, 2, 3] && All(c) == [0, 1, 2, 3, 4, 5];
    }
    assert Lengths(ts) == [2, 2, 2, 2] by {
      assert Lengths(a) == [2] && Lengths(b) == [2, 2] && Lengths(c) == [2, 2, 2];
    }
    FourPairs();
  }

  lemma FourPairs()
    ensures Reached([2, 2, 2, 2], 4) == Place(4, Some(3))
  {
    assert [2, 2, 2, 2][..3] == [2, 2, 2] && [2, 2, 2][..2] == [2, 2] && [2, 2][..1] == [2] && [2][..0] == [];
    assert Reached([2, 2], 4) == Place(4, None);
    assert Thinned(Place(6, None), 4) == Place(4, Some(1));
    assert Thinned(Place(6, Some(1)), 4) == Place(4, Some(3));
  }

  // ----- values one by one

  function Singles<T>(vs: seq<T>): seq<seq<T>> {
    seq(|vs|, i requires 0 <= i < |vs| => [vs[i]])
  }

  /** A transaction that gets its values one by one. */
  function Collect<T>(vs: seq<T>, max: nat): Shape<T> {
    Gather(Singles(vs), max)
  }

  lemma SinglesSnoc<T>(vs: seq<T>, max: nat)
    requires vs != []
    ensures var front, x := vs[..|vs| - 1], vs[|vs| - 1];
            Singles(vs) == Singles(front) + [[x]] && Collect(vs, max) == Transfer(Collect(front, max), [x], max)
  {
    assert Singles(vs)[..|vs| - 1] == Singles(vs[..|vs| - 1]);
  }

  lemma {:induction false} AllSingles<T>(vs: seq<T>)
    ensures All(Singles(vs)) == vs
  {
    if vs != [] {
      SinglesSnoc(vs, 0);
      assert Singles(vs)[..|vs| - 1] == Singles(vs[..|vs| - 1]);
      AllSingles(vs[..|vs| - 1]);
    }
  }

  function Rem(n: int, m: int): int
    requires m >= 1
  {
    n % m
  }

  lemma Euclid(k: int, m: int)
    requires m >= 1
    ensures k == m * (k / m) + k % m && 0 <= k % m < m
  {
  }

  lemma Distribute(m: int, a: int, b: int)
    ensures m * (a - b) == m * a - m * b
  {
  }

  lemma SmallMultiple(d: int, m: int)
    requires m >= 1 && -m < m * d < m
    ensures d == 0
  {
  }

  lemma RemainderOf(q: int, r: int, m: int)
    requires 0 <= r < m
    ensures (m * q + r) % m == r
  {
    var k := m * q + r;
    Euclid(k, m);
    Distribute(m, q, k / m);
    SmallMultiple(q - k / m, m);
  }

  lemma NextRemainder(n: int, m: int)
    requires m >= 1
    ensures Rem(n + 1, m) == if Rem(n, m) == m - 1 then 0 else Rem(n, m) + 1
    ensures Rem(0, m) == 0 && 0 <= Rem(n, m) < m
  {
    var q, r := n / m, n % m;
    Euclid(n, m);
    Distribute(m, q, -1);
    if r == m - 1 {
      RemainderOf(q + 1, 0, m);
    } else {
      RemainderOf(q, r + 1, m);
    }
  }

  lemma RemainderShift(n: int, m: int)
    requires m >= 1
    ensures Rem(n + m, m) == Rem(n, m)
  {
    Euclid(n, m);
    Distribute(m, n / m, -1);
    RemainderOf(n / m + 1, n % m, m);
    assert n + m == m * (n / m + 1) + n % m;
  }

  lemma RoomLeft<T>(s: Shape<T>, x: T, max: nat)
    requires |s.values| < max
    ensures Transfer(s, [x], max) == Shape(s.values + [x], s.cursor)
  {
  }

  /** A single value on a full list: it is the one deleted exactly when the cursor reaches the last kept node. */
  lemma OneMore<T>(s: Shape<T>, x: T, max: nat)
    requires max >= 1 && |s.values| == max && s.Valid()
    ensures var r := Transfer(s, [x], max);
            var c := if s.cursor.None? || s.cursor.value + 1 == max then 0 else s.cursor.value + 1;
            && |r.values| == max && r.cursor == Some(c)
            && (x !in s.values ==> (x in r.values <==> c != max - 1))
  {
    var full := Shape(s.values + [x], s.cursor);
    var c, r := NextCursor(full), DropOne(full);
    assert Thin(full, max) == Thin(r, max) == r;
    if c == max - 1 {
      assert r.values == s.values;
    } else {
      assert r.values[max - 1] == x;
    }
  }

  /** Once the list is full, the cursor walks through it and starts over after `max` deletions. */
  lemma {:induction false} CursorCycles<T>(vs: seq<T>, max: nat)
    requires max >= 1
    ensures var s := Collect(vs, max);
            if |vs| <= max then s == Shape(vs, None)
            else |s.values| == max && s.cursor == Some(Rem(|vs| - max - 1, max))
  {
    hide Rem, Transfer;
    if vs != [] {
      var n, front, x := |vs|, vs[..|vs| - 1], vs[|vs| - 1];
      CursorCycles(front, max);
      SinglesSnoc(vs, max);
      hide Collect;
      assert front + [x] == vs;
      NextRemainder(n - max - 2, max);
      if n <= max {
        RoomLeft(Collect(front, max), x, max);
      } else {
        OneMore(Collect(front, max), x, max);
      }
    }
  }

  lemma CollectSelects<T>(vs: seq<T>, max: nat)
    requires max >= 1
    ensures Collect(vs, max).Valid() && forall x :: x in Collect(vs, max).values ==> x in vs
  {
    AllSingles(vs);
    hide All, Gather;
    GatherSelects(Singles(vs), max);
  }

  /** One by one, the last value is lost exactly at the multiples of the maximum other than the maximum itself. */
  lemma SinglesLoseNewestExactly<T>(vs: seq<T>, max: nat)
    requires max >= 1 && vs != [] && vs[|vs| - 1] !in vs[..|vs| - 1]
    ensures vs[|vs| - 1] !in Collect(vs, max).values <==> |vs| > max && Rem(|vs|, max) == 0
  {
    hide Rem, Transfer, Collect;
    var n := |vs|;
    var front, x := vs[..n - 1], vs[n - 1];
    CursorCycles(vs, max);
    if n > max {
      CursorCycles(front, max);
      CollectSelects(front, max);
      SinglesSnoc(vs, max);
      OneMore(Collect(front, max), x, max);
      NextRemainder(n - max - 1, max);
      RemainderShift(n - max, max);
    }
  }

  // ----- the code

  class Node<T> {
    var value: Option<T>
    var next: Node?<T>

    constructor ()
      ensures value == None && next == null
    {
      value, next := None, null;
    }
  }

  /** The nodes are distinct and each points to the one after it. */
  ghost predicate Linked<T>(nodes: seq<Node<T>>)
    reads nodes
  {
    && (forall i, j | 0 <= i < j < |nodes| :: nodes[i] != nodes[j])
    && (forall i {:trigger nodes[i].next} | 0 <= i < |nodes| - 1 :: nodes[i].next == nodes[i + 1])
    && (nodes != [] ==> nodes[|nodes| - 1].next == null)
  }

  /** The list without the item behind number `c`. */
  function Without<T>(s: seq<T>, c: nat): (r: seq<T>)
    requires c + 1 < |s|
    ensures |r| == |s| - 1
    ensures r[..c + 1] == s[..c + 1]
  {
    s[..c + 1] + s[c + 2..]
  }

  lemma CarriesWithout<T>(nodes: seq<Node<T>>, values: seq<T>, c: nat)
    requires Carries(nodes, values) && c + 1 < |nodes|
    ensures c + 1 < |values| && Carries(Without(nodes, c), Without(values, c))
  {
  }

  lemma SameLength<T>(nodes: seq<Node<T>>, values: seq<T>)
    requires Carries(nodes, values)
    ensures |nodes| == |values|
  {}

  /** Take the node after `node`, which is node number `c`, out of the list. */
  method UnlinkNext<T>(node: Node<T>, ghost nodes: seq<Node<T>>, ghost values: seq<T>, ghost c: nat)
    requires Linked(nodes) && Carries(nodes, values) && c + 1 < |nodes| && nodes[c] == node
    modifies node`next
    ensures Linked(Without(nodes, c)) && c + 1 < |values| && Carries(Without(nodes, c), Without(values, c))
  {
    ghost var rest := nodes[..c + 1] + nodes[c + 2..];
    var tmp := node.next;
    assert tmp == nodes[c + 1];
    assert c + 2 < |nodes| ==> tmp.next == nodes[c + 2];
    assert c + 2 == |nodes| ==> tmp.next == null;
    node.next := tmp.next;
    CarriesWithout(nodes, values, c);
    forall i {:trigger rest[i].next} | 0 <= i < |rest| - 1
      ensures rest[i].next == rest[i + 1]
    {
      var j := if i <= c then i else i + 1;
      assert rest[i] == nodes[j];
      if j != c {
        assert nodes[j] != node && old(nodes[j].next) == nodes[j + 1];
      }
    }
  }

  /** Hang a new node behind the last one. */
  method LinkNew<T>(last: Node<T>, ghost nodes: seq<Node<T>>) returns (n: Node<T>)
    requires Linked(nodes) && nodes != [] && nodes[|nodes| - 1] == last
    modifies last`next
    ensures fresh(n) && n.value == None && Linked(nodes + [n])
  {
    n := new Node<T>();
    last.next := n;
  }

  ghost predicate Carries<T>(nodes: seq<Node<T>>, values: seq<T>)
    reads nodes
  {
    |nodes| == |values| && forall i | 0 <= i < |nodes| :: nodes[i].value == Some(values[i])
  }

  lemma CarriesAppended<T>(nodes: seq<Node<T>>, values: seq<T>, last: Node<T>, incoming: seq<Node<T>>, added: seq<T>)
    requires Carries(nodes, values) && Carries(incoming, added) && incoming != [] && last.value == incoming[0].value
    ensures Carries(nodes + [last] + incoming[1..], values + added)
  {
    var all, vs, k := nodes + [last] + incoming[1..], values + added, |nodes|;
    forall i | 0 <= i < |all|
      ensures all[i].value == Some(vs[i])
    {
      if i > k {
        assert all[i] == incoming[i - k];
      }
    }
  }

  /** Take over the content of a list's first node, and with it the rest of that list. */
  method TakeOver<T>(last: Node<T>, head: Node<T>, ghost nodes: seq<Node<T>>, ghost incoming: seq<Node<T>>,
                     ghost values: seq<T>, ghost added: seq<T>)
    requires Linked(nodes + [last]) && Linked(incoming) && incoming != [] && incoming[0] == head
    requires forall i | 0 <= i < |incoming| :: incoming[i] !in nodes && incoming[i] != last
    requires Carries(nodes, values) && Carries(incoming, added)
    modifies last
    ensures Linked(nodes + [last] + incoming[1..]) && Carries(nodes + [last] + incoming[1..], values + added)
  {
    ghost var all := nodes + [last] + incoming[1..];
    last.value := head.value;
    last.next := head.next;
    var k := |nodes|;
    forall i | 0 <= i < k
      ensures nodes[i] != last
    {
      assert (nodes + [last])[i] == nodes[i] && (nodes + [last])[k] == last;
    }
    CarriesAppended(nodes, values, last, incoming, added);
    forall i {:trigger all[i].next} | 0 <= i < |all| - 1
      ensures all[i].next == all[i + 1]
    {
      if i < k {
        assert all[i] == (nodes + [last])[i] && (nodes + [last])[i + 1] == all[i + 1];
        assert old((nodes + [last])[i].next) == (nodes + [last])[i + 1];
      } else {
        assert all[i + 1] == incoming[i - k + 1] && incoming[i - k].next == incoming[i - k + 1];
      }
    }
    assert incoming[|incoming| - 1].next == null;
    forall i, j | 0 <= i < j < |all|
      ensures all[i] != all[j]
    {
      if j <= k {
        assert all[i] == (nodes + [last])[i] && all[j] == (nodes + [last])[j];
      } else {
        assert all[j] == incoming[j - k];
        if i > k {
          assert all[i] == incoming[i - k];
        }
      }
    }
  }

  lemma DropOneIs<T>(s: Shape<T>)
    requires s.values != []
    ensures |s.values| == 1 ==> DropOne(s) == Shape([], None)
    ensures |s.values| > 1
            ==> NextCursor(s) + 1 < |s.values|
                && DropOne(s) == Shape(Without(s.values, NextCursor(s)), Some(NextCursor(s)))
  {}

  lemma EmptyList<T>()
    ensures Linked<T>([]) && Carries<T>([], [])
  {}

  lemma DropOneSubset<T>(s: Shape<T>)
    requires s.values != []
    ensures forall i | 0 <= i < |DropOne(s).values| :: DropOne(s).values[i] in s.values
  {
  }

  class StopTransactionData<T> {
    const max: nat
    var current: Node?<T>
    var intermittent: Node?<T>
    var length: nat
    /** The nodes of the current list, their values, and the cursor as a position. */
    ghost var nodes: seq<Node<T>>
    ghost var values: seq<T>
    ghost var position: Option<nat>

    ghost predicate Shaped()
      reads this, nodes
    {
      && Linked(nodes) && Carries(nodes, values)
      && (if current == null then nodes == [] && position == None
          else
            && nodes != [] && nodes[0] == current && length == |nodes|
            && if position == None then intermittent == null
               else position.value < |nodes| && nodes[position.value] == intermittent)
    }

    ghost predicate Valid()
      reads this, nodes
    {
      Shaped() && |nodes| <= max
    }

    ghost function Abstract(): Shape<T>
      reads this
    {
      Shape(values, position)
    }

    constructor (max: nat)
      ensures Valid() && current == null && this.max == max && Abstract() == Shape([], None)
    {
      this.max, current, intermittent, length := max, null, null, 0;
      nodes, values, position := [], [], None;
    }

    /** The part of stop_transaction that gives the list up; cursor and length are left as they are. */
    method Stop()
      requires Valid()
      modifies this`current, this`nodes, this`values, this`position
      ensures Valid() && Abstract() == Shape([], None)
    {
      current := null;
      nodes, values, position := [], [], None;
    }

    /** Move to the node in front of the next one to delete. */
    method MoveCursor(ghost c: nat)
      requires Shaped() && nodes != [] && c == NextCursor(Abstract())
      modifies this`intermittent
      ensures intermittent == nodes[c] && (intermittent.next == null <==> |nodes| == 1)
    {
      if position != None {
        assert position.value + 1 < |nodes| ==> intermittent.next == nodes[position.value + 1];
      }
      if intermittent == null || intermittent.next == null || intermittent.next.next == null {
        intermittent := current;
      } else {
        intermittent := intermittent.next;
      }
    }

    method DeleteBehindCursor(ghost c: nat)
      requires Linked(nodes) && Carries(nodes, values) && length == |nodes|
      requires c + 1 < |nodes| && intermittent == nodes[c] && current == nodes[0]
      modifies this`nodes, this`values, this`position, this`length, intermittent`next
      ensures Shaped() && position == Some(c) && length == old(length) - 1
      ensures nodes == Without(old(nodes), c) && values == Without(old(values), c)
    {
      hide Linked, Carries;
      UnlinkNext(intermittent, nodes, values, c);
      nodes := Without(nodes, c);
      values := Without(values, c);
      position := Some(c);
      length := length - 1;
    }

    /** One turn of the loop that deletes intermittent values. */
    method DeleteOne()
      requires Shaped() && nodes != []
      modifies this, nodes
      ensures Shaped()
      ensures Abstract() == DropOne(old(Abstract()))
      ensures length == old(length) - 1
      ensures nodes == DropOne(Shape(old(nodes), old(position))).values
    {
      ghost var c := NextCursor(Abstract());
      EmptyList<T>();
      SameLength(nodes, values);
      DropOneIs(Abstract());
      DropOneIs(Shape(nodes, position));
      hide Linked, Carries, DropOne, Without;
      MoveCursor(c);
      if intermittent.next == null {
        current, intermittent := null, null;
        nodes, values, position := [], [], None;
        length := length - 1;
      } else {
        DeleteBehindCursor(c);
      }
    }

    /** ocpp_meter_list_get_last */
    method GetLast() returns (last: Node<T>)
      requires Linked(nodes) && nodes != [] && nodes[0] == current
      ensures last == nodes[|nodes| - 1]
    {
      last := current;
      ghost var i := 0;
      while last.next != null
        invariant 0 <= i < |nodes| && last == nodes[i]
        decreases |nodes| - i
      {
        last := last.next;
        i := i + 1;
      }
    }

    /** An empty node behind the current ones, in a new list if there is none. */
    method NewTail(ghost incoming: seq<Node<T>>, ghost added: seq<T>) returns (last: Node<T>)
      requires Shaped() && Linked(incoming) && Carries(incoming, added)
      requires forall i | 0 <= i < |incoming| :: incoming[i] !in nodes
      modifies this`current, this`length, this`intermittent, nodes
      ensures fresh(last) && last.value == None && Linked(nodes + [last]) && Carries(nodes, values)
      ensures current == (nodes + [last])[0] && length == |nodes|
      ensures if position == None then intermittent == null
              else position.value < |nodes| && nodes[position.value] == intermittent
      ensures Linked(incoming) && Carries(incoming, added)
    {
      if current == null {
        current := new Node<T>();
        length := 0;
        intermittent := null;
        assert nodes + [current] == [current];
        last := current;
      } else {
        last := GetLast();
        if last.value != None {
          last := LinkNew(last, nodes);
        }
      }
    }

    /** The new values are put behind the current ones. */
    method Append(head: Node<T>, count: nat, ghost incoming: seq<Node<T>>, ghost added: seq<T>)
      requires Shaped()
      requires Linked(incoming) && Carries(incoming, added) && incoming != [] && incoming[0] == head
               && count == |incoming|
      requires forall i | 0 <= i < |incoming| :: incoming[i] !in nodes
      modifies this, nodes
      ensures Shaped()
      ensures Abstract() == Shape(old(values) + added, old(position))
      ensures current != null
      ensures length == |nodes|
      ensures forall i | 0 <= i < |nodes| :: nodes[i] in old(nodes) || nodes[i] in incoming || fresh(nodes[i])
    {
      var last := NewTail(incoming, added);
      TakeOver(last, head, nodes, incoming, values, added);
      nodes := nodes + [last] + incoming[1..];
      values := values + added;
      length := length + count;
    }

    /** sessionHandler_OcppTransferMeterValues; without a transaction on the connector the values are discarded. */
    method TransferMeterValues(transactionIsActive: bool, head: Node<T>, count: nat, ghost incoming: seq<Node<T>>,
                               ghost added: seq<T>)
      requires Valid()
      requires Linked(incoming) && Carries(incoming, added) && incoming != [] && incoming[0] == head
               && count == |incoming|
      requires forall i | 0 <= i < |incoming| :: incoming[i] !in nodes
      modifies this, nodes, incoming
      ensures Valid()
      ensures Abstract() == if transactionIsActive then Transfer(old(Abstract()), added, max) else old(Abstract())
    {
      if !transactionIsActive {
        return;
      }
      Append(head, count, incoming, added);
      ghost var start := Abstract();
      while length > max
        invariant Shaped() && length == |nodes| && Thin(Abstract(), max) == Thin(start, max)
        invariant forall i | 0 <= i < |nodes| :: nodes[i] in old(nodes) || nodes[i] in incoming || fresh(nodes[i])
        decreases length
      {
        DropOneSubset(Shape(nodes, position));
        DeleteOne();
      }
    }
  }
}
