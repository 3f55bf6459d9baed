/** What routing answers: the prefix scan as longest match, and how far the two documented
    claims hold (longest prefix first; 405 for every exact path). */
module RouteClaims {
  import opened Probing

  const MAX_ROUTES: nat := 128
  const PATH_ROOM: nat := 255
  const VERB_ROOM: nat := 15

  /** What strncpy leaves of a string in a field with room for n characters. */
  function Cut(s: string, n: nat): (r: string)
    ensures r <= s && |r| == if |s| <= n then |s| else n
  {
    if |s| <= n then s else s[..n]
  }

  // ---- prefix routes ---------------------------------------------------------------------

  /** An empty pattern matches nothing. */
  predicate Matches(pattern: string, path: string) {
    pattern != "" && pattern <= path
  }

  lemma MatchesMeans(pattern: string, path: string)
    ensures Matches(pattern, path) <==> pattern != "" && exists tail :: path == pattern + tail
  {
    if pattern <= path {
      assert path == pattern + path[|pattern|..];
    }
  }

  /** Entry i serves the request, and none before it does. */
  ghost predicate FirstServing(routes: seq<Route>, verb: string, path: string, i: nat) {
    && i < |routes| && Matches(routes[i].path, path) && routes[i].verb == verb
    && forall j :: 0 <= j < i ==> !(Matches(routes[j].path, path) && routes[j].verb == verb)
  }

  /** No pattern of a method comes before a longer one that it begins. */
  ghost predicate LongestFirst(routes: seq<Route>) {
    forall i, j :: 0 <= i < j < |routes| && routes[i].verb == routes[j].verb && routes[i].path != ""
      ==> !(routes[i].path < routes[j].path)
  }

  /** No entry that serves the request is longer than entry i. */
  ghost predicate LongestServing(routes: seq<Route>, verb: string, path: string, i: nat)
    requires i < |routes|
  {
    forall j :: 0 <= j < |routes| && Matches(routes[j].path, path) && routes[j].verb == verb
      ==> |routes[j].path| <= |routes[i].path|
  }

  /** The scan picks the longest prefix for every request exactly when the table is ordered
      so: insertion order alone decides. */
  lemma LongestMatchIff(routes: seq<Route>)
    requires Distinct(routes)
    ensures LongestFirst(routes) <==>
            forall verb, path, i :: FirstServing(routes, verb, path, i) ==> LongestServing(routes, verb, path, i)
  {
    if LongestFirst(routes) {
      forall verb, path, i | FirstServing(routes, verb, path, i)
        ensures LongestServing(routes, verb, path, i)
      {
        OrderedServesLongest(routes, verb, path, i);
      }
    } else {
      var i, j :| 0 <= i < j < |routes| && routes[i].verb == routes[j].verb && routes[i].path != ""
        && routes[i].path < routes[j].path;
      var k := UnorderedServesShorter(routes, i, j);
    }
  }

  lemma PrefixesNest(a: string, b: string, path: string)
    requires a <= path && b <= path
    ensures |a| < |b| ==> a < b
  {
  }

  lemma OrderedServesLongest(routes: seq<Route>, verb: string, path: string, i: nat)
    requires LongestFirst(routes) && FirstServing(routes, verb, path, i)
    ensures LongestServing(routes, verb, path, i)
  {
    forall j | 0 <= j < |routes| && Matches(routes[j].path, path) && routes[j].verb == verb
      ensures |routes[j].path| <= |routes[i].path|
    {
      PrefixesNest(routes[i].path, routes[j].path, path);
    }
  }

  /** The request for the longer pattern itself is served by a shorter one. */
  lemma UnorderedServesShorter(routes: seq<Route>, i: nat, j: nat) returns (k: nat)
    requires i < j < |routes| && routes[i].verb == routes[j].verb && routes[i].path != ""
    requires Distinct(routes) && routes[i].path < routes[j].path
    ensures FirstServing(routes, routes[j].verb, routes[j].path, k)
    ensures !LongestServing(routes, routes[j].verb, routes[j].path, k)
  {
    var verb, path := routes[j].verb, routes[j].path;
    k := 0;
    while !(Matches(routes[k].path, path) && routes[k].verb == verb)
      invariant k <= i
      invariant forall m :: 0 <= m < k ==> !(Matches(routes[m].path, path) && routes[m].verb == verb)
      decreases i - k
    {
      k := k + 1;
    }
    assert Unique(routes, j) && !Matching(routes[k], verb, path);
    assert routes[k].path <= path && routes[k].path != path;
  }

  // ---- the default prefix routes ---------------------------------------------------------

  function Plain(verb: string, path: string): Route {
    Route(path, verb, 0, "", "")
  }

  /** The prefix routes of an unconfigured server, in the order in which they are added. */
  const DEFAULT_PREFIXES: seq<Route> := [
    Plain("GET", "/users/find-index/"),
    Plain("GET", "/users/compare-verbose/"),
    Plain("GET", "/users/compare/"),
    Plain("GET", "/users/"),
    Plain("DELETE", "/users/"),
    Plain("GET", "/user/"),
    Plain("GET", "/sleep/"),
    Plain("GET", "/blog/"),
    Plain("HEAD", "/blog/"),
    Plain("GET", "/"),
    Plain("HEAD", "/")
  ]

  lemma NotPrefixAt(a: string, b: string, k: nat)
    requires k < |a| && (k < |b| ==> a[k] != b[k])
    ensures !(a < b)
  {
  }

  /** So the longest default prefix always wins. */
  lemma DefaultsLongestFirst()
    ensures LongestFirst(DEFAULT_PREFIXES)
  {
    forall i, j | 0 <= i < j < |DEFAULT_PREFIXES| && DEFAULT_PREFIXES[i].verb == DEFAULT_PREFIXES[j].verb
      ensures !(DEFAULT_PREFIXES[i].path < DEFAULT_PREFIXES[j].path)
    {
      if i == 0 && j == 1 {
        NotPrefixAt("/users/find-index/", "/users/compare-verbose/", 7);
      } else if i == 5 && j == 6 {
        NotPrefixAt("/user/", "/sleep/", 1);
      } else {
        assert |DEFAULT_PREFIXES[i].path| >= |DEFAULT_PREFIXES[j].path|;
      }
    }
  }

  // ---- exact routes ----------------------------------------------------------------------

  lemma {:induction false} FoldInjective(h: nat, g: nat, s: string)
    requires h % HASH_SIZE != g % HASH_SIZE
    ensures Fold(h, s) % HASH_SIZE != Fold(g, s) % HASH_SIZE
    decreases s
  {
    if s != "" {
      StepInjective(h, g, s[0] as nat);
      FoldInjective((h * 33 + s[0] as nat) % TWO_32, (g * 33 + s[0] as nat) % TWO_32, s[1..]);
    }
  }

  lemma StepInjective(h: nat, g: nat, c: nat)
    requires h % HASH_SIZE != g % HASH_SIZE
    ensures (h * 33 + c) % TWO_32 % HASH_SIZE != (g * 33 + c) % TWO_32 % HASH_SIZE
  {
    StepAgrees(h, h, c);
    StepAgrees(g, g, c);
    var x, y := h * 33 + c, g * 33 + c;
    if x % HASH_SIZE == y % HASH_SIZE {
      var k := x / HASH_SIZE - y / HASH_SIZE;
      assert 33 * (h - g) == HASH_SIZE * k;
      assert h == g + HASH_SIZE * (225 * k - 29 * (h - g));
      Shift(g, 225 * k - 29 * (h - g));
    }
  }

  /** Whether two methods share a home slot does not depend on the path. */
  lemma SameHomeIff(verb: string, other: string, path: string)
    ensures HashKey(verb, path) == HashKey(other, path)
            <==> Fold(5381, verb) % HASH_SIZE == Fold(5381, other) % HASH_SIZE
  {
    var h, g := Fold(5381, verb), Fold(5381, other);
    var h', g' := (h * 33 + ':' as nat) % TWO_32, (g * 33 + ':' as nat) % TWO_32;
    if h % HASH_SIZE == g % HASH_SIZE {
      StepAgrees(h, g, ':' as nat);
      StepAgrees(g, g, ':' as nat);
      assert h' % HASH_SIZE == g' % HASH_SIZE;
      FoldAgrees(h', h', path);
      FoldAgrees(g', h', path);
    } else {
      StepInjective(h, g, ':' as nat);
      FoldInjective(h', g', path);
    }
  }

  /** With one route for a path, another method is reported as wrong exactly when it shares
      the home slot; otherwise the path seems not to exist. */
  lemma LoneRouteWrongVerb(r: Route, verb: string)
    requires verb != r.verb
    ensures Resolve([r], verb, r.path) == if HashKey(verb, r.path) == Home(r) then OtherVerb else Miss
  {
    var slots, h := Hashed([r]), HashKey(verb, r.path);
    HashedOne(r);
    HashedSound([r]);
    UnregisteredLookUp([r], verb, r.path);
    if h == Home(r) {
      assert Slot(h, 0) == h && Meets(slots, h, 0, 0);
    } else {
      assert slots[Slot(h, 0)] == EMPTY;
      forall n, i | Meets(slots, h, n, i)
        ensures i == EMPTY
      {
        EmptyHome(slots, h, n, i);
      }
    }
  }

  lemma EmptyHome(slots: seq<int>, h: nat, n: nat, i: int)
    requires |slots| == HASH_SIZE && h < HASH_SIZE && slots[Slot(h, 0)] == EMPTY && Meets(slots, h, n, i)
    ensures i == EMPTY
  {
  }

  lemma HashedOne(r: Route)
    ensures Hashed([r]) == seq(HASH_SIZE, _ => EMPTY)[Home(r) := 0]
  {
    assert [r][..0] == [];
    assert Hashed([]) == seq(HASH_SIZE, _ => EMPTY);
    assert Slot(Home(r), 0) == Home(r);
  }

  // ---- home slots of some methods --------------------------------------------------------

  /** The hash after k characters as far as it matters: only the low eight bits. */
  function Low(h: nat, s: string, k: nat): nat
    requires k <= |s|
  {
    if k == 0 then h else (Low(h, s, k - 1) * 33 + s[k - 1] as nat) % HASH_SIZE
  }

  lemma {:induction false} FoldAppend(h: nat, s: string, c: char)
    ensures Fold(h, s + [c]) == (Fold(h, s) * 33 + c as nat) % TWO_32
    decreases s
  {
    if s == "" {
      assert s + [c] == [c] && [c][1..] == "";
    } else {
      FoldAppend((h * 33 + s[0] as nat) % TWO_32, s[1..], c);
      assert (s + [c])[1..] == s[1..] + [c];
    }
  }

  lemma {:induction false} LowPrefix(h: nat, g: nat, s: string, k: nat)
    requires k <= |s| && g < HASH_SIZE && h % HASH_SIZE == g
    ensures Fold(h, s[..k]) % HASH_SIZE == Low(g, s, k)
  {
    if k > 0 {
      LowPrefix(h, g, s, k - 1);
      FoldAppend(h, s[..k - 1], s[k - 1]);
      assert s[..k] == s[..k - 1] + [s[k - 1]];
      StepAgrees(Fold(h, s[..k - 1]), Low(g, s, k - 1), s[k - 1] as nat);
    }
  }

  lemma LowIs(h: nat, g: nat, s: string)
    requires g < HASH_SIZE && h % HASH_SIZE == g
    ensures Fold(h, s) % HASH_SIZE == Low(g, s, |s|)
  {
    LowPrefix(h, g, s, |s|);
    assert s[..|s|] == s;
  }

  lemma HashKeyLow(verb: string, path: string)
    ensures HashKey(verb, path) == Low((Low(5, verb, |verb|) * 33 + ':' as nat) % HASH_SIZE, path, |path|)
  {
    LowIs(5381, 5, verb);
    LowAfter(Fold(5381, verb), Low(5, verb, |verb|), path);
  }

  lemma LowAfter(h: nat, g: nat, path: string)
    requires h % HASH_SIZE == g
    ensures Fold((h * 33 + ':' as nat) % TWO_32, path) % HASH_SIZE
         == Low((g * 33 + ':' as nat) % HASH_SIZE, path, |path|)
  {
    StepAgrees(h, g, ':' as nat);
    LowIs((h * 33 + ':' as nat) % TWO_32, (g * 33 + ':' as nat) % HASH_SIZE, path);
  }

  lemma LowGet(h: nat, s: string)
    requires h == 5 && s == "GET"
    ensures Low(h, s, |s|) == 37
  {
    assert Low(h, s, 1) == 236;
    assert Low(h, s, 2) == 177;
  }

  lemma LowPost(h: nat, s: string)
    requires h == 5 && s == "POST"
    ensures Low(h, s, |s|) == 235
  {
    assert Low(h, s, 1) == 245;
    assert Low(h, s, 2) == 228;
    assert Low(h, s, 3) == 183;
  }

  lemma LowHead(h: nat, s: string)
    requires h == 5 && s == "HEAD"
    ensures Low(h, s, |s|) == 247
  {
    assert Low(h, s, 1) == 237;
    assert Low(h, s, 2) == 210;
    assert Low(h, s, 3) == 83;
  }

  lemma LowDelete(h: nat, s: string)
    requires h == 5 && s == "DELETE"
    ensures Low(h, s, |s|) == 184
  {
    assert Low(h, s, 1) == 233;
    assert Low(h, s, 2) == 78;
    assert Low(h, s, 3) == 90;
    assert Low(h, s, 4) == 223;
    assert Low(h, s, 5) == 19;
  }

  lemma LowNeighbour(h: nat, s: string)
    requires h == 255 && s == "/hj"
    ensures Low(h, s, |s|) == 96
  {
    assert Low(h, s, 1) == 14;
    assert Low(h, s, 2) == 54;
  }

  lemma LowTwinA(h: nat, s: string)
    requires h == 5 && s == "AI"
    ensures Low(h, s, |s|) == 239
  {
    assert Low(h, s, 1) == 230;
  }

  lemma LowTwinB(h: nat, s: string)
    requires h == 5 && s == "IA"
    ensures Low(h, s, |s|) == 239
  {
    assert Low(h, s, 1) == 238;
  }

  lemma LowRoot(h: nat, s: string)
    requires s == "/"
    ensures Low(h, s, |s|) == (h * 33 + 47) % HASH_SIZE
  {
    assert Low(h, s, 0) == h;
  }

  /** The hash after the method and the colon fixes what the path makes of it. */
  lemma HashKeyIs(verb: string, path: string, x: nat, y: nat)
    requires Low(5, verb, |verb|) == x && y == (x * 33 + ':' as nat) % HASH_SIZE
    ensures HashKey(verb, path) == Low(y, path, |path|)
  {
    HashKeyLow(verb, path);
  }

  lemma HeadHome(verb: string, path: string)
    requires verb == "HEAD" && path == "/"
    ensures HashKey(verb, path) == 96
  {
    LowHead(5, verb);
    HashKeyIs(verb, path, 247, 17);
    LowRoot(17, path);
  }

  lemma DeleteHome(verb: string, path: string)
    requires verb == "DELETE" && path == "/"
    ensures HashKey(verb, path) == 97
  {
    LowDelete(5, verb);
    HashKeyIs(verb, path, 184, 242);
    LowRoot(242, path);
  }

  lemma NeighbourHome(verb: string, path: string)
    requires verb == "GET" && path == "/hj"
    ensures HashKey(verb, path) == 96
  {
    LowGet(5, verb);
    HashKeyIs(verb, path, 37, 255);
    LowNeighbour(255, path);
  }

  /** A path that only a POST route serves, in a table without further exact routes, is not
      reported as 405 to GET, whatever the path; UnregisteredLookUp decides the other tables. */
  lemma GetMissesPostRoute(post: Route, verb: string)
    requires post.verb == "POST" && verb == "GET"
    ensures Resolve([post], verb, post.path) == Miss
  {
    LowGet(5, verb);
    LowPost(5, post.verb);
    LowIs(5381, 5, verb);
    LowIs(5381, 5, post.verb);
    LoneRouteWrongVerb(post, verb);
    SameHomeIff(verb, post.verb, post.path);
  }

  /** A route whose home slot is taken may be pushed behind a route for its own path. */
  lemma PushedShadowed(a: Route, d: Route, r: Route)
    requires Home(a) == Home(r) && Home(d) == Slot(Home(r), 1)
    requires d.path == r.path && d.verb != r.verb && !Matching(a, r.verb, r.path)
    ensures Resolve([a, d, r], r.verb, r.path) == OtherVerb
  {
    var h := Home(r);
    var one, two, slots := Hashed([a]), Hashed([a, d]), Hashed([a, d, r]);
    HashedOne(a);
    assert Slot(h, 0) == h && Slot(h, 1) != h && Slot(h, 2) !in {h, Slot(h, 1)};
    assert [a, d][..1] == [a] && Slot(Home(d), 0) == Home(d) && Free(one, Home(d), 0) == 0;
    assert two == one[Slot(h, 1) := 1];
    assert Free(two, h, 2) == 2;
    assert Free(two, h, 1) == 2;
    assert Free(two, h, 0) == 2;
    assert [a, d, r][..2] == [a, d] && slots == two[Slot(h, 2) := 2];
    assert Meets(slots, h, 1, 1) && Meets(slots, h, 2, 2);
    assert Shadowed([a, d, r], 2);
    RegisteredLookUp([a, d, r], 2);
  }

  /** So a registered route can be answered with 405: here HEAD for the root, behind the DELETE
      route for it, because GET for another path has its home slot. */
  lemma RegisteredYetWrongVerb(other: Route, delete: Route, head: Route)
    requires other.verb == "GET" && other.path == "/hj"
    requires delete.verb == "DELETE" && head.verb == "HEAD" && delete.path == head.path == "/"
    ensures Resolve([other, delete, head], head.verb, head.path) == OtherVerb
  {
    NeighbourHome(other.verb, other.path);
    DeleteHome(delete.verb, delete.path);
    HeadHome(head.verb, head.path);
    PushedShadowed(other, delete, head);
  }

  /** Two methods with one home slot for a path: in every table the route added second is shadowed. */
  lemma SecondTwinShadowed(routes: seq<Route>, i: nat, j: nat)
    requires |routes| < HASH_SIZE && i < j < |routes| && Unique(routes, j)
    requires routes[i].path == routes[j].path && Home(routes[i]) == Home(routes[j])
    ensures Resolve(routes, routes[j].verb, routes[j].path) == OtherVerb
  {
    var m, n := EarlierMet(routes, i, j);
    RegisteredLookUp(routes, j);
  }

  /** Such methods exist, for every path. */
  lemma TwinMethods(routes: seq<Route>, i: nat, j: nat)
    requires |routes| < HASH_SIZE && i < j < |routes| && Unique(routes, j)
    requires routes[i].verb == "AI" && routes[j].verb == "IA" && routes[i].path == routes[j].path
    ensures Resolve(routes, routes[j].verb, routes[j].path) == OtherVerb
  {
    LowTwinA(5, routes[i].verb);
    LowTwinB(5, routes[j].verb);
    LowIs(5381, 5, routes[i].verb);
    LowIs(5381, 5, routes[j].verb);
    SameHomeIff(routes[i].verb, routes[j].verb, routes[i].path);
    SecondTwinShadowed(routes, i, j);
  }
}
