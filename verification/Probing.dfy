/** The open-addressed index of the exact routes: which probes reach which route. */
module Probing {
  import opened Ring
  import opened Sums

  const HASH_SIZE: nat := 256
  const EMPTY: int := -1
  const TWO_32: nat := 0x1_0000_0000

  datatype Route = Route(path: string, verb: string, handler: int, authRealm: string, requiredRole: string)

  // ---- hashing ---------------------------------------------------------------------------

  /** djb2 in 32-bit arithmetic. */
  function Fold(h: nat, s: string): nat
    decreases s
  {
    if s == "" then h else Fold((h * 33 + s[0] as nat) % TWO_32, s[1..])
  }

  function HashKey(verb: string, path: string): nat {
    Fold((Fold(5381, verb) * 33 + ':' as nat) % TWO_32, path) % HASH_SIZE
  }

  function Home(r: Route): nat {
    HashKey(r.verb, r.path)
  }

  /** djb2 in unbounded arithmetic. */
  function FoldUnbounded(h: nat, s: string): nat
    decreases s
  {
    if s == "" then h else FoldUnbounded(h * 33 + s[0] as nat, s[1..])
  }

  /** The overflow does not show: the index is the one of unbounded arithmetic. */
  lemma HashKeyUnbounded(verb: string, path: string)
    ensures HashKey(verb, path)
         == FoldUnbounded(FoldUnbounded(5381, verb) * 33 + ':' as nat, path) % HASH_SIZE
  {
    var h, g := Fold(5381, verb), FoldUnbounded(5381, verb);
    FoldAgrees(5381, 5381, verb);
    StepAgrees(h, g, ':' as nat);
    FoldAgrees((h * 33 + ':' as nat) % TWO_32, g * 33 + ':' as nat, path);
  }

  lemma {:induction false} FoldAgrees(h: nat, g: nat, s: string)
    requires h % HASH_SIZE == g % HASH_SIZE
    ensures Fold(h, s) % HASH_SIZE == FoldUnbounded(g, s) % HASH_SIZE
    decreases s
  {
    if s != "" {
      StepAgrees(h, g, s[0] as nat);
      FoldAgrees((h * 33 + s[0] as nat) % TWO_32, g * 33 + s[0] as nat, s[1..]);
    }
  }

  lemma StepAgrees(h: nat, g: nat, c: nat)
    requires h % HASH_SIZE == g % HASH_SIZE
    ensures (h * 33 + c) % TWO_32 % HASH_SIZE == (g * 33 + c) % HASH_SIZE
  {
    var x, y := h * 33 + c, g * 33 + c;
    var q := x / TWO_32;
    assert x % TWO_32 == x - HASH_SIZE * (0x100_0000 * q);
    Shift(x, -0x100_0000 * q);
    var d := h / HASH_SIZE - g / HASH_SIZE;
    assert h - g == HASH_SIZE * d;
    assert x == y + HASH_SIZE * (33 * d);
    Shift(y, 33 * d);
  }

  lemma Shift(x: int, k: int)
    ensures (x + HASH_SIZE * k) % HASH_SIZE == x % HASH_SIZE
  {
    var r := x % HASH_SIZE;
    var q := x / HASH_SIZE;
    assert x + HASH_SIZE * k == HASH_SIZE * (q + k) + r;
  }

  // ---- probing ---------------------------------------------------------------------------

  /** The slot after m probes from h. */
  function Slot(h: nat, m: nat): (r: nat)
    requires h < HASH_SIZE && m <= HASH_SIZE
    ensures r < HASH_SIZE
  {
    Wrap(h + m, HASH_SIZE)
  }

  lemma SlotNext(h: nat, m: nat)
    requires h < HASH_SIZE && m < HASH_SIZE
    ensures Slot(h, m + 1) == (Slot(h, m) + 1) % HASH_SIZE
  {
    WrapIsRemainder(Slot(h, m) + 1, HASH_SIZE);
  }

  /** Probing meets every slot. */
  function Steps(h: nat, j: nat): (m: nat)
    requires h < HASH_SIZE && j < HASH_SIZE
    ensures m < HASH_SIZE && Slot(h, m) == j
  {
    if h <= j then j - h else j + HASH_SIZE - h
  }

  /** The first n probes from h meet no empty slot. */
  ghost predicate Clear(slots: seq<int>, h: nat, n: nat)
    requires |slots| == HASH_SIZE && h < HASH_SIZE && n <= HASH_SIZE
  {
    forall m :: 0 <= m < n ==> slots[Slot(h, m)] != EMPTY
  }

  /** Probing from h meets index i after n probes of used slots. */
  ghost predicate Meets(slots: seq<int>, h: nat, n: nat, i: int)
    requires |slots| == HASH_SIZE && h < HASH_SIZE
  {
    n < HASH_SIZE && slots[Slot(h, n)] == i && Clear(slots, h, n)
  }

  /** The number of probes before the first empty slot. */
  function Free(slots: seq<int>, h: nat, n: nat): (f: nat)
    requires |slots| == HASH_SIZE && h < HASH_SIZE && n <= HASH_SIZE
    ensures n <= f <= HASH_SIZE
    ensures f < HASH_SIZE ==> slots[Slot(h, f)] == EMPTY
    ensures forall m :: n <= m < f ==> slots[Slot(h, m)] != EMPTY
    decreases HASH_SIZE - n
  {
    if n == HASH_SIZE || slots[Slot(h, n)] == EMPTY then n else Free(slots, h, n + 1)
  }

  function Occupied(x: int): nat {
    if x == EMPTY then 0 else 1
  }

  lemma {:induction false} FullSum(s: seq<int>)
    requires forall k :: 0 <= k < |s| ==> s[k] != EMPTY
    ensures Sum(s, Occupied) == |s|
  {
    if s != [] {
      FullSum(s[1..]);
    }
  }

  lemma {:induction false} EmptySum(s: seq<int>)
    requires forall k :: 0 <= k < |s| ==> s[k] == EMPTY
    ensures Sum(s, Occupied) == 0
  {
    if s != [] {
      EmptySum(s[1..]);
    }
  }

  /** While a slot is unused, probing ends. */
  lemma ProbingEnds(slots: seq<int>, h: nat)
    requires |slots| == HASH_SIZE && h < HASH_SIZE && Sum(slots, Occupied) < HASH_SIZE
    ensures Free(slots, h, 0) < HASH_SIZE
  {
    if Free(slots, h, 0) == HASH_SIZE {
      forall k | 0 <= k < |slots|
        ensures slots[k] != EMPTY
      {
        assert slots[Slot(h, Steps(h, k))] != EMPTY;
      }
      FullSum(slots);
    }
  }

  /** The slots after linear probing put i into the first empty slot. */
  function Inserted(slots: seq<int>, h: nat, i: int): (r: seq<int>)
    requires |slots| == HASH_SIZE && h < HASH_SIZE
    ensures |r| == HASH_SIZE
  {
    var f := Free(slots, h, 0);
    if f < HASH_SIZE then slots[Slot(h, f) := i] else slots
  }

  /** The slots after indexing the routes in order. */
  function Hashed(routes: seq<Route>): (slots: seq<int>)
    ensures |slots| == HASH_SIZE
  {
    if routes == [] then seq(HASH_SIZE, _ => EMPTY)
    else
      var n := |routes| - 1;
      Inserted(Hashed(routes[..n]), Home(routes[n]), n)
  }

  // ---- the invariant of the index --------------------------------------------------------

  ghost predicate InRange(slots: seq<int>, n: nat) {
    && |slots| == HASH_SIZE
    && forall k :: 0 <= k < HASH_SIZE ==> slots[k] == EMPTY || 0 <= slots[k] < n
  }

  /** No index has two slots. */
  ghost predicate Single(slots: seq<int>) {
    forall j, k :: 0 <= j < k < |slots| && slots[j] != EMPTY ==> slots[j] != slots[k]
  }

  ghost predicate Met(slots: seq<int>, h: nat, i: int)
    requires |slots| == HASH_SIZE && h < HASH_SIZE
  {
    exists n :: Meets(slots, h, n, i)
  }

  /** Every index is met from the home slot of its route. */
  ghost predicate AllMet(slots: seq<int>, routes: seq<Route>)
    requires |slots| == HASH_SIZE
  {
    forall i :: 0 <= i < |routes| ==> Met(slots, Home(routes[i]), i)
  }

  lemma MeetsOnce(slots: seq<int>, h: nat, i: int, n: nat)
    requires |slots| == HASH_SIZE && h < HASH_SIZE && Single(slots) && i != EMPTY && Meets(slots, h, n, i)
    ensures forall m :: Meets(slots, h, m, i) ==> m == n
  {
    forall m | Meets(slots, h, m, i)
      ensures m == n
    {
      assert Slot(h, m) == Slot(h, n);
    }
  }

  lemma StillMeets(slots: seq<int>, h: nat, n: nat, i: int, k: nat, x: int)
    requires |slots| == HASH_SIZE && h < HASH_SIZE && Meets(slots, h, n, i) && i != EMPTY
    requires k < HASH_SIZE && slots[k] == EMPTY && x != EMPTY
    ensures Meets(slots[k := x], h, n, i)
  {
  }

  lemma InsertSingle(slots: seq<int>, k: nat, n: nat)
    requires InRange(slots, n) && Single(slots) && k < HASH_SIZE
    ensures InRange(slots[k := n], n + 1) && Single(slots[k := n])
  {
  }

  lemma InsertMet(slots: seq<int>, routes: seq<Route>, n: nat)
    requires |slots| == HASH_SIZE && |routes| == n + 1 && AllMet(slots, routes[..n])
    requires Free(slots, Home(routes[n]), 0) < HASH_SIZE
    ensures AllMet(Inserted(slots, Home(routes[n]), n), routes)
  {
    var h := Home(routes[n]);
    var k := Slot(h, Free(slots, h, 0));
    forall i | 0 <= i <= n
      ensures Met(slots[k := n], Home(routes[i]), i)
    {
      if i < n {
        assert routes[..n][i] == routes[i] && Met(slots, Home(routes[i]), i);
        var m :| Meets(slots, Home(routes[i]), m, i);
        StillMeets(slots, Home(routes[i]), m, i, k, n);
        assert Meets(slots[k := n], Home(routes[i]), m, i);
      } else {
        NewMeets(slots, h, n);
      }
    }
  }

  lemma NewMeets(slots: seq<int>, h: nat, n: nat)
    requires |slots| == HASH_SIZE && h < HASH_SIZE && Free(slots, h, 0) < HASH_SIZE
    ensures Meets(Inserted(slots, h, n), h, Free(slots, h, 0), n)
  {
  }

  /** The slots are those of an index of these routes. */
  ghost predicate Indexes(slots: seq<int>, routes: seq<Route>) {
    InRange(slots, |routes|) && Single(slots) && AllMet(slots, routes) && Sum(slots, Occupied) == |routes|
  }

  lemma IndexesNext(slots: seq<int>, routes: seq<Route>, n: nat)
    requires |routes| == n + 1 < HASH_SIZE && Indexes(slots, routes[..n])
    ensures Free(slots, Home(routes[n]), 0) < HASH_SIZE && Indexes(Inserted(slots, Home(routes[n]), n), routes)
  {
    var h := Home(routes[n]);
    ProbingEnds(slots, h);
    var k := Slot(h, Free(slots, h, 0));
    SumUpdate(slots, k, n, Occupied);
    InsertSingle(slots, k, n);
    InsertMet(slots, routes, n);
  }

  /** Every route occupies exactly one slot, reached from its home slot through used slots. */
  lemma {:induction false} HashedSound(routes: seq<Route>)
    requires |routes| < HASH_SIZE
    ensures Indexes(Hashed(routes), routes)
  {
    if routes == [] {
      EmptySum(Hashed(routes));
    } else {
      HashedSound(routes[..|routes| - 1]);
      IndexesNext(Hashed(routes[..|routes| - 1]), routes, |routes| - 1);
    }
  }

  lemma OlderMet(slots: seq<int>, h: nat, i: nat, x: nat) returns (m: nat, n: nat)
    requires |slots| == HASH_SIZE && h < HASH_SIZE && Met(slots, h, i) && Free(slots, h, 0) < HASH_SIZE
    ensures m < n && Meets(Inserted(slots, h, x), h, m, i) && Meets(Inserted(slots, h, x), h, n, x)
  {
    m :| Meets(slots, h, m, i);
    n := Free(slots, h, 0);
    NewMeets(slots, h, x);
    StillMeets(slots, h, m, i, Slot(h, n), x);
  }

  lemma StillMet(slots: seq<int>, h: nat, m: nat, i: nat, h': nat, x: nat)
    requires |slots| == HASH_SIZE && h < HASH_SIZE && h' < HASH_SIZE && Meets(slots, h, m, i)
    requires Free(slots, h', 0) < HASH_SIZE
    ensures Meets(Inserted(slots, h', x), h, m, i)
  {
    StillMeets(slots, h, m, i, Slot(h', Free(slots, h', 0)), x);
  }

  lemma RoomForLast(routes: seq<Route>)
    requires 0 < |routes| < HASH_SIZE
    ensures
      var n := |routes| - 1;
      Free(Hashed(routes[..n]), Home(routes[n]), 0) < HASH_SIZE
  {
    var n := |routes| - 1;
    HashedSound(routes[..n]);
    ProbingEnds(Hashed(routes[..n]), Home(routes[n]));
  }

  /** Of two routes with one home slot the earlier one is met first. */
  lemma {:induction false} EarlierMet(routes: seq<Route>, i: nat, j: nat) returns (m: nat, n: nat)
    requires |routes| < HASH_SIZE && i < j < |routes| && Home(routes[i]) == Home(routes[j])
    ensures m < n && Meets(Hashed(routes), Home(routes[j]), m, i) && Meets(Hashed(routes), Home(routes[j]), n, j)
    decreases |routes|
  {
    var last := |routes| - 1;
    var before := routes[..last];
    RoomForLast(routes);
    if j == last {
      HashedSound(before);
      assert before[i] == routes[i] && Met(Hashed(before), Home(before[i]), i);
      m, n := OlderMet(Hashed(before), Home(routes[j]), i, j);
    } else {
      m, n := EarlierMet(before, i, j);
      StillMet(Hashed(before), Home(routes[j]), m, i, Home(routes[last]), last);
      StillMet(Hashed(before), Home(routes[j]), n, j, Home(routes[last]), last);
    }
  }

  // ---- lookup ----------------------------------------------------------------------------

  datatype Lookup = Hit(index: nat) | OtherVerb | Miss

  /** Probing for a key from the nth probe on; the first route with the path decides. */
  function LookUp(slots: seq<int>, routes: seq<Route>, verb: string, path: string, n: nat): Lookup
    requires InRange(slots, |routes|) && n <= HASH_SIZE
    decreases HASH_SIZE - n
  {
    if n == HASH_SIZE then Miss
    else
      var i := slots[Slot(HashKey(verb, path), n)];
      if i == EMPTY then Miss
      else if routes[i].path != path then LookUp(slots, routes, verb, path, n + 1)
      else if routes[i].verb == verb then Hit(i)
      else OtherVerb
  }

  /** The path has a route on the way from h to the first empty slot: index i, and no other
      before it. */
  ghost predicate Nearest(slots: seq<int>, routes: seq<Route>, h: nat, path: string, n: nat, i: nat)
    requires InRange(slots, |routes|) && h < HASH_SIZE
  {
    && Meets(slots, h, n, i) && i < |routes| && routes[i].path == path
    && forall m :: 0 <= m < n ==> routes[slots[Slot(h, m)]].path != path
  }

  lemma {:induction false} LookUpNearest(slots: seq<int>, routes: seq<Route>, verb: string, path: string,
                                         n: nat, k: nat, i: nat)
    requires InRange(slots, |routes|) && k <= n
    requires Nearest(slots, routes, HashKey(verb, path), path, n, i)
    ensures LookUp(slots, routes, verb, path, k) == (if routes[i].verb == verb then Hit(i) else OtherVerb)
    decreases n - k
  {
    var h := HashKey(verb, path);
    if k < n {
      assert slots[Slot(h, k)] != EMPTY && routes[slots[Slot(h, k)]].path != path;
      LookUpNearest(slots, routes, verb, path, n, k + 1, i);
    }
  }

  lemma {:induction false} LookUpFinds(slots: seq<int>, routes: seq<Route>, verb: string, path: string, k: nat)
    returns (n: nat, i: nat)
    requires InRange(slots, |routes|) && k <= HASH_SIZE
    requires Clear(slots, HashKey(verb, path), k)
    requires forall m :: 0 <= m < k ==> routes[slots[Slot(HashKey(verb, path), m)]].path != path
    ensures !LookUp(slots, routes, verb, path, k).Miss? ==>
              Nearest(slots, routes, HashKey(verb, path), path, n, i)
    ensures LookUp(slots, routes, verb, path, k).Miss? ==>
              forall d, j :: 0 <= j < |routes| && Meets(slots, HashKey(verb, path), d, j) ==> routes[j].path != path
    decreases HASH_SIZE - k
  {
    n, i := k, 0;
    if k < HASH_SIZE {
      var x := slots[Slot(HashKey(verb, path), k)];
      if x != EMPTY {
        if routes[x].path == path {
          i := x;
        } else {
          n, i := LookUpFinds(slots, routes, verb, path, k + 1);
        }
      }
    }
  }

  lemma NearestFirst(slots: seq<int>, routes: seq<Route>, h: nat, path: string, n: nat, i: nat, e: nat, j: nat)
    requires InRange(slots, |routes|) && h < HASH_SIZE && Nearest(slots, routes, h, path, n, i)
    requires j < |routes| && Meets(slots, h, e, j) && routes[j].path == path
    ensures n < e || (n == e && i == j)
  {
  }

  /** Looking a key up in the index of these routes. */
  function Resolve(routes: seq<Route>, verb: string, path: string): Lookup
    requires |routes| < HASH_SIZE
  {
    HashedSound(routes);
    LookUp(Hashed(routes), routes, verb, path, 0)
  }

  predicate Matching(r: Route, verb: string, path: string) {
    r.path == path && r.verb == verb
  }

  /** No other route has the key of route i. */
  ghost predicate Unique(routes: seq<Route>, i: nat)
    requires i < |routes|
  {
    forall j :: 0 <= j < |routes| && j != i ==> !Matching(routes[j], routes[i].verb, routes[i].path)
  }

  /** No (method, path) pair is registered twice. */
  ghost predicate Distinct(routes: seq<Route>) {
    forall i :: 0 <= i < |routes| ==> Unique(routes, i)
  }

  /** On the way to route i there is a route for the same path. */
  ghost predicate Shadowed(routes: seq<Route>, i: nat)
    requires i < |routes|
  {
    var slots, h := Hashed(routes), Home(routes[i]);
    exists m, n, j ::
      && Meets(slots, h, n, i) && m < n && Meets(slots, h, m, j)
      && 0 <= j < |routes| && routes[j].path == routes[i].path
  }

  /** A returned index is an entry for exactly the key asked for. */
  lemma HitIsEntry(routes: seq<Route>, verb: string, path: string)
    requires |routes| < HASH_SIZE
    requires Resolve(routes, verb, path).Hit?
    ensures Resolve(routes, verb, path).index < |routes|
    ensures Matching(routes[Resolve(routes, verb, path).index], verb, path)
  {
    HashedSound(routes);
    var n, i := LookUpFinds(Hashed(routes), routes, verb, path, 0);
    LookUpNearest(Hashed(routes), routes, verb, path, n, 0, i);
  }

  /** A registered route is found exactly when it is not shadowed; a shadowed one is reported
      as a wrong method. */
  lemma RegisteredLookUp(routes: seq<Route>, i: nat)
    requires |routes| < HASH_SIZE && i < |routes| && Unique(routes, i)
    ensures Resolve(routes, routes[i].verb, routes[i].path) == if Shadowed(routes, i) then OtherVerb else Hit(i)
  {
    HashedSound(routes);
    var slots, h := Hashed(routes), Home(routes[i]);
    assert Met(slots, h, i);
    var e :| Meets(slots, h, e, i);
    var n, j := LookUpFinds(slots, routes, routes[i].verb, routes[i].path, 0);
    assert Nearest(slots, routes, h, routes[i].path, n, j);
    LookUpNearest(slots, routes, routes[i].verb, routes[i].path, n, 0, j);
    if j == i {
      MeetsOnce(slots, h, i, n);
    } else {
      assert !Matching(routes[j], routes[i].verb, routes[i].path);
      NearestFirst(slots, routes, h, routes[i].path, n, j, e, i);
    }
  }

  /** A route for the path lies on the probe path of the key. */
  ghost predicate Passed(routes: seq<Route>, verb: string, path: string) {
    exists n, i ::
      0 <= i < |routes| && Meets(Hashed(routes), HashKey(verb, path), n, i) && routes[i].path == path
  }

  /** An unregistered key is reported as a wrong method exactly when a route for its path lies
      on its own probe path; otherwise it is not found at all. */
  lemma UnregisteredLookUp(routes: seq<Route>, verb: string, path: string)
    requires |routes| < HASH_SIZE
    requires forall i :: 0 <= i < |routes| ==> !Matching(routes[i], verb, path)
    ensures Resolve(routes, verb, path) == if Passed(routes, verb, path) then OtherVerb else Miss
  {
    HashedSound(routes);
    var n, i := LookUpFinds(Hashed(routes), routes, verb, path, 0);
    if !LookUp(Hashed(routes), routes, verb, path, 0).Miss? {
      LookUpNearest(Hashed(routes), routes, verb, path, n, 0, i);
    }
  }

  /** What shadows a route is another route for its path. */
  lemma ShadowTwin(routes: seq<Route>, i: nat) returns (j: nat)
    requires |routes| < HASH_SIZE && i < |routes| && Shadowed(routes, i)
    ensures j < |routes| && j != i && routes[j].path == routes[i].path
  {
    HashedSound(routes);
    var slots, h := Hashed(routes), Home(routes[i]);
    var m, n, k :| Meets(slots, h, n, i) && m < n && Meets(slots, h, m, k)
      && 0 <= k < |routes| && routes[k].path == routes[i].path;
    j := k;
    MeetsOther(slots, h, n, i, m, k);
  }

  lemma MeetsOther(slots: seq<int>, h: nat, n: nat, i: int, m: nat, j: int)
    requires |slots| == HASH_SIZE && h < HASH_SIZE && Single(slots) && i != EMPTY
    requires Meets(slots, h, n, i) && Meets(slots, h, m, j) && m != n
    ensures i != j
  {
    assert Slot(h, m) != Slot(h, n);
  }

  /** A route that is alone for its path is always found. */
  lemma LonePathFound(routes: seq<Route>, i: nat)
    requires |routes| < HASH_SIZE && i < |routes|
    requires forall j :: 0 <= j < |routes| && j != i ==> routes[j].path != routes[i].path
    ensures Resolve(routes, routes[i].verb, routes[i].path) == Hit(i)
  {
    if Shadowed(routes, i) {
      var j := ShadowTwin(routes, i);
    }
    RegisteredLookUp(routes, i);
  }
}
