/** The comparators handed to `Array.prototype.sort` in script.js, and the
    stable sort itself. ECMAScript 2019 requires the sort to be stable and
    the comparators here are consistent (section 23.1.3.30 of ECMA-262), so
    its result is fully determined: StableSortUnique proves that the
    insertion sort below is the only sorted, tie-order-preserving
    rearrangement of its input. */
module Ordering {
  import opened Processes

  /** Which comparator a scheduler sorts with. */
  datatype Order =
    | ByArrival   // FCFS: `(a, b) => a.arrival - b.arrival`
    | ByBurst     // SJF: `a.burst - b.burst || a.arrival - b.arrival`
    | ByPriority  // Priority: `a.priority - b.priority || a.arrival - b.arrival`

  /** JavaScript's `x || y` on integers: `x` unless `x` is 0. */
  function OrElse(x: int, y: int): int {
    if x != 0 then x else y
  }

  /** The comparator's value: negative puts `a` first, positive puts `b`
      first, zero keeps their current order. */
  function Compare(o: Order, a: Process, b: Process): int {
    match o
    case ByArrival => a.arrival - b.arrival
    case ByBurst => OrElse(a.burst - b.burst, a.arrival - b.arrival)
    case ByPriority => OrElse(a.priority - b.priority, a.arrival - b.arrival)
  }

  /** `a` may come before `b`. */
  predicate Le(o: Order, a: Process, b: Process) {
    Compare(o, a, b) <= 0
  }

  /** The comparator cannot tell `a` and `b` apart. */
  predicate Tied(o: Order, a: Process, b: Process) {
    Compare(o, a, b) == 0
  }

  /** What each comparator orders by. */
  lemma CompareMeaning(o: Order, a: Process, b: Process)
    ensures o == ByArrival ==>
      (Le(o, a, b) <==> a.arrival <= b.arrival) &&
      (Tied(o, a, b) <==> a.arrival == b.arrival)
    ensures o == ByBurst ==>
      (Le(o, a, b) <==> a.burst < b.burst || (a.burst == b.burst && a.arrival <= b.arrival)) &&
      (Tied(o, a, b) <==> a.burst == b.burst && a.arrival == b.arrival)
    ensures o == ByPriority ==>
      (Le(o, a, b) <==> a.priority < b.priority || (a.priority == b.priority && a.arrival <= b.arrival)) &&
      (Tied(o, a, b) <==> a.priority == b.priority && a.arrival == b.arrival)
  {
  }

  /** Each comparator is consistent in the sense of ECMA-262: antisymmetric,
      total and transitive, and ties are an equivalence; every comparator also
      breaks its ties by arrival, so tied processes arrived together. */
  lemma ComparatorIsConsistent(o: Order, a: Process, b: Process, c: Process)
    ensures Compare(o, a, b) == -Compare(o, b, a)
    ensures Le(o, a, b) || Le(o, b, a)
    ensures Le(o, a, b) && Le(o, b, c) ==> Le(o, a, c)
    ensures Tied(o, a, b) ==> (Le(o, a, c) <==> Le(o, b, c))
    ensures Tied(o, a, b) ==> (Tied(o, a, c) <==> Tied(o, b, c))
    ensures Tied(o, a, b) ==> a.arrival == b.arrival
  {
  }

  /** Every pair is in comparator order. */
  predicate Sorted(o: Order, s: seq<Process>) {
    forall i, j :: 0 <= i < j < |s| ==> Le(o, s[i], s[j])
  }

  /** The entries of `s` tied with `y`, in their order in `s`. A stable sort
      leaves every such subsequence as it was. */
  function Peers(o: Order, y: Process, s: seq<Process>): seq<Process> {
    if s == [] then []
    else (if Tied(o, s[0], y) then [s[0]] else []) + Peers(o, y, s[1..])
  }

  /** The peers of `y` in `s` are the entries of `s` tied with `y`. */
  lemma {:induction false} PeersMembers(o: Order, y: Process, s: seq<Process>)
    ensures forall x :: x in Peers(o, y, s) <==> x in s && Tied(o, x, y)
  {
    if s != [] {
      PeersMembers(o, y, s[1..]);
      assert s == [s[0]] + s[1..];
    }
  }

  lemma {:induction false} PeersConcat(o: Order, y: Process, a: seq<Process>, b: seq<Process>)
    ensures Peers(o, y, a + b) == Peers(o, y, a) + Peers(o, y, b)
  {
    if a != [] {
      assert (a + b)[0] == a[0];
      assert (a + b)[1..] == a[1..] + b;
      PeersConcat(o, y, a[1..], b);
    } else {
      assert a + b == b;
    }
  }

  /** The first of `y`'s peers in `s` is preceded only by entries not tied with `y`. */
  lemma {:induction false} FirstPeer(o: Order, y: Process, s: seq<Process>)
    requires Peers(o, y, s) != []
    ensures exists i :: (0 <= i < |s| && s[i] == Peers(o, y, s)[0] &&
      Tied(o, s[i], y) && forall j :: 0 <= j < i ==> !Tied(o, s[j], y))
  {
    if !Tied(o, s[0], y) {
      FirstPeer(o, y, s[1..]);
      var i :| 0 <= i < |s[1..]| && s[1..][i] == Peers(o, y, s[1..])[0] &&
        Tied(o, s[1..][i], y) && forall j :: 0 <= j < i ==> !Tied(o, s[1..][j], y);
      assert s[i + 1] == Peers(o, y, s)[0];
      assert forall j :: 0 <= j < i + 1 ==> !Tied(o, s[j], y) by {
        forall j | 0 <= j < i + 1 ensures !Tied(o, s[j], y) {
          if j > 0 {
            assert s[j] == s[1..][j - 1];
          }
        }
      }
    } else {
      assert s[0] == Peers(o, y, s)[0];
    }
  }

  /** Insert `x` before the first entry it may precede. */
  function Insert(o: Order, x: Process, s: seq<Process>): (r: seq<Process>)
    ensures |r| == |s| + 1 && multiset(r) == multiset(s) + multiset{x}
  {
    if s == [] then [x]
    else if Le(o, x, s[0]) then [x] + s
    else
      assert s == [s[0]] + s[1..];
      [s[0]] + Insert(o, x, s[1..])
  }

  /** `Array.prototype.sort` with comparator `o`, written as a stable
      insertion sort. */
  function StableSort(o: Order, s: seq<Process>): (r: seq<Process>)
    ensures |r| == |s| && multiset(r) == multiset(s)
  {
    if s == [] then []
    else
      assert s == [s[0]] + s[1..];
      Insert(o, s[0], StableSort(o, s[1..]))
  }

  /** A sorted sequence stays sorted under a new first entry that may
      precede all of it. */
  lemma SortedCons(o: Order, a: Process, t: seq<Process>)
    requires Sorted(o, t) && forall z :: z in t ==> Le(o, a, z)
    ensures Sorted(o, [a] + t)
  {
    var r := [a] + t;
    forall i, j | 0 <= i < j < |r| ensures Le(o, r[i], r[j]) {
      assert r[j] == t[j - 1];
      if i > 0 {
        assert r[i] == t[i - 1];
      } else {
        assert t[j - 1] in t;
      }
    }
  }

  lemma SortedTail(o: Order, s: seq<Process>)
    requires Sorted(o, s) && s != []
    ensures Sorted(o, s[1..])
  {
    forall i, j | 0 <= i < j < |s| - 1 ensures Le(o, s[1..][i], s[1..][j]) {
      assert s[1..][i] == s[i + 1] && s[1..][j] == s[j + 1];
    }
  }

  lemma {:induction false} InsertSorted(o: Order, x: Process, s: seq<Process>)
    requires Sorted(o, s)
    ensures Sorted(o, Insert(o, x, s))
  {
    if s == [] {
    } else if Le(o, x, s[0]) {
      SortedHeadIsMinimal(o, s);
      forall z | z in s ensures Le(o, x, z) {
        ComparatorIsConsistent(o, x, s[0], z);
      }
      SortedCons(o, x, s);
    } else {
      var t := Insert(o, x, s[1..]);
      SortedTail(o, s);
      InsertSorted(o, x, s[1..]);
      ComparatorIsConsistent(o, x, s[0], x);
      SortedHeadIsMinimal(o, s);
      forall z | z in t ensures Le(o, s[0], z) {
        assert z in multiset(t);
        if z != x {
          assert z in multiset(s[1..]);
          assert z in s;
        }
      }
      SortedCons(o, s[0], t);
    }
  }

  /** The sort's output is in comparator order. */
  lemma {:induction false} StableSortSorted(o: Order, s: seq<Process>)
    ensures Sorted(o, StableSort(o, s))
  {
    if s != [] {
      StableSortSorted(o, s[1..]);
      InsertSorted(o, s[0], StableSort(o, s[1..]));
    }
  }

  /** An entry that `x` may not precede is not tied with anything `x` is tied with. */
  lemma NotBothTied(o: Order, x: Process, z: Process, y: Process)
    requires !Le(o, x, z)
    ensures !(Tied(o, x, y) && Tied(o, z, y))
  {
    ComparatorIsConsistent(o, x, y, z);
    ComparatorIsConsistent(o, z, y, y);
  }

  lemma Swap<T>(a: seq<T>, b: seq<T>, c: seq<T>)
    requires a == [] || b == []
    ensures a + (b + c) == b + (a + c)
  {
    if a == [] {
      assert a + (b + c) == b + c == b + (a + c);
    } else {
      assert a + (b + c) == a + c == b + (a + c);
    }
  }

  lemma {:induction false} InsertPeers(o: Order, x: Process, s: seq<Process>, y: Process)
    ensures Peers(o, y, Insert(o, x, s)) == (if Tied(o, x, y) then [x] else []) + Peers(o, y, s)
  {
    if s == [] {
    } else if Le(o, x, s[0]) {
      PeersConcat(o, y, [x], s);
    } else {
      var t := Insert(o, x, s[1..]);
      InsertPeers(o, x, s[1..], y);
      PeersConcat(o, y, [s[0]], t);
      PeersConcat(o, y, [s[0]], s[1..]);
      assert s == [s[0]] + s[1..];
      NotBothTied(o, x, s[0], y);
      Swap(Peers(o, y, [s[0]]), if Tied(o, x, y) then [x] else [], Peers(o, y, s[1..]));
    }
  }

  /** Stability: the sort keeps every group of tied entries in input order. */
  lemma {:induction false} StableSortPeers(o: Order, s: seq<Process>, y: Process)
    ensures Peers(o, y, StableSort(o, s)) == Peers(o, y, s)
  {
    if s != [] {
      StableSortPeers(o, s[1..], y);
      InsertPeers(o, s[0], StableSort(o, s[1..]), y);
    }
  }

  lemma PeersOfSelf(o: Order, y: Process, s: seq<Process>)
    requires y in s
    ensures y in Peers(o, y, s)
  {
    ComparatorIsConsistent(o, y, y, y);
    PeersMembers(o, y, s);
  }

  /** Two sorted sequences that agree on every group of tied entries are equal. */
  lemma {:induction false} SortedPeersUnique(o: Order, r1: seq<Process>, r2: seq<Process>)
    requires Sorted(o, r1) && Sorted(o, r2)
    requires forall y :: Peers(o, y, r1) == Peers(o, y, r2)
    ensures r1 == r2
    decreases |r1|
  {
    if r1 != [] && r2 == [] {
      PeersOfSelf(o, r1[0], r1);
      assert false;
    } else if r1 == [] && r2 != [] {
      PeersOfSelf(o, r2[0], r2);
      assert false;
    } else if r1 != [] {
      var a, b := r1[0], r2[0];
      PeersOfSelf(o, a, r1);
      PeersOfSelf(o, b, r2);
      PeersMembers(o, a, r2);
      PeersMembers(o, b, r1);
      assert a in r2 && b in r1;
      var ka :| 0 <= ka < |r2| && r2[ka] == a;
      var kb :| 0 <= kb < |r1| && r1[kb] == b;
      assert Le(o, a, b) && Le(o, b, a);
      ComparatorIsConsistent(o, a, b, a);
      ComparatorIsConsistent(o, a, a, a);
      assert Tied(o, b, a);
      assert Peers(o, a, r1) == [a] + Peers(o, a, r1[1..]);
      assert Peers(o, a, r2) == [b] + Peers(o, a, r2[1..]);
      assert Peers(o, a, r1)[0] == a && Peers(o, a, r2)[0] == b;
      forall y ensures Peers(o, y, r1[1..]) == Peers(o, y, r2[1..]) {
        var p := if Tied(o, a, y) then [a] else [];
        assert Peers(o, y, r1) == p + Peers(o, y, r1[1..]);
        assert Peers(o, y, r2) == p + Peers(o, y, r2[1..]);
        assert (p + Peers(o, y, r1[1..]))[|p|..] == Peers(o, y, r1[1..]);
        assert (p + Peers(o, y, r2[1..]))[|p|..] == Peers(o, y, r2[1..]);
      }
      SortedTail(o, r1);
      SortedTail(o, r2);
      SortedPeersUnique(o, r1[1..], r2[1..]);
      assert r1 == [a] + r1[1..] && r2 == [b] + r2[1..];
    }
  }

  /** The sort is the only rearrangement that is sorted and keeps tied
      entries in input order, which is what ECMA-262 asks of a stable sort. */
  lemma StableSortUnique(o: Order, s: seq<Process>, r: seq<Process>)
    requires Sorted(o, r)
    requires forall y :: Peers(o, y, r) == Peers(o, y, s)
    ensures r == StableSort(o, s)
  {
    StableSortSorted(o, s);
    forall y ensures Peers(o, y, r) == Peers(o, y, StableSort(o, s)) {
      StableSortPeers(o, s, y);
    }
    SortedPeersUnique(o, r, StableSort(o, s));
  }

  /** The first entry of a sorted sequence may precede every entry. */
  lemma SortedHeadIsMinimal(o: Order, r: seq<Process>)
    requires Sorted(o, r) && r != []
    ensures forall x :: x in r ==> Le(o, r[0], x)
  {
    forall x | x in r ensures Le(o, r[0], x) {
      var k :| 0 <= k < |r| && r[k] == x;
      if k == 0 {
        ComparatorIsConsistent(o, x, x, x);
      }
    }
  }

  /** `sort` followed by `shift` yields the first entry of `s` that is
      minimal under the comparator. */
  lemma StableSortHead(o: Order, s: seq<Process>)
    requires s != []
    ensures |StableSort(o, s)| == |s|
    ensures forall x :: x in s ==> Le(o, StableSort(o, s)[0], x)
    ensures exists i :: (0 <= i < |s| && s[i] == StableSort(o, s)[0] &&
      forall j :: 0 <= j < i ==> Compare(o, s[i], s[j]) < 0)
  {
    var r := StableSort(o, s);
    var h := r[0];
    StableSortSorted(o, s);
    SortedHeadIsMinimal(o, r);
    forall x | x in s ensures Le(o, h, x) {
      assert x in multiset(s);
      assert x in r;
    }
    StableSortPeers(o, s, h);
    ComparatorIsConsistent(o, h, h, h);
    assert Peers(o, h, r)[0] == h;
    FirstPeer(o, h, s);
    var i :| 0 <= i < |s| && s[i] == Peers(o, h, s)[0] &&
      Tied(o, s[i], h) && forall j :: 0 <= j < i ==> !Tied(o, s[j], h);
    forall j | 0 <= j < i ensures Compare(o, s[i], s[j]) < 0 {
      ComparatorIsConsistent(o, s[j], h, h);
    }
  }
}
