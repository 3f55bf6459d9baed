/** The route table: exact routes behind a hash index, prefix routes in insertion order. */
module RouteTable {
  import opened Basics
  import opened Probing
  import opened RouteClaims

  const HANDLER_NONE: int := -1

  datatype MatchType = MatchExact | MatchPrefix

  datatype Found = Found(entry: Option<Route>, captured: string, is405: bool, allow: string)

  /** An entry as its fixed-size fields keep it. */
  function Stored(verb: string, path: string, handler: int, realm: string, role: string): Route {
    Route(Cut(path, PATH_ROOM), Cut(verb, VERB_ROOM), handler, Cut(realm, 63), Cut(role, 31))
  }

  /** Everything fits the fields of an entry, each with room for a terminating zero. */
  predicate FitsEntry(verb: string, path: string, realm: string, role: string) {
    |path| < 256 && |verb| < 16 && |realm| < 64 && |role| < 32
  }

  /** Then nothing is lost, and otherwise only what the fields have no room for. */
  lemma StoredMeans(verb: string, path: string, handler: int, realm: string, role: string)
    ensures FitsEntry(verb, path, realm, role) ==>
      Stored(verb, path, handler, realm, role) == Route(path, verb, handler, realm, role)
    ensures
      var r := Stored(verb, path, handler, realm, role);
      && r.path <= path && r.verb <= verb && r.handler == handler && r.authRealm <= realm && r.requiredRole <= role
      && (|path| >= 256 ==> |r.path| == 255) && (|verb| >= 16 ==> |r.verb| == 15)
      && (|realm| >= 64 ==> |r.authRealm| == 63) && (|role| >= 32 ==> |r.requiredRole| == 31)
  {
  }

  predicate Registered(routes: seq<Route>, verb: string, path: string) {
    exists i :: 0 <= i < |routes| && Matching(routes[i], verb, path)
  }

  /** The duplicate check looks at the whole strings, so keys stay distinct exactly as long as
      no truncated key is there already. */
  lemma AddKeepsDistinct(routes: seq<Route>, r: Route)
    requires Distinct(routes)
    ensures Distinct(routes + [r]) <==> !Registered(routes, r.verb, r.path)
  {
    var all, n := routes + [r], |routes|;
    if Registered(routes, r.verb, r.path) {
      var i :| 0 <= i < n && Matching(routes[i], r.verb, r.path);
      assert all[i] == routes[i] && all[n] == r && Matching(all[i], all[n].verb, all[n].path);
      assert !Unique(all, n);
    } else {
      forall i | 0 <= i <= n
        ensures Unique(all, i)
      {
        forall j | 0 <= j <= n && j != i
          ensures !Matching(all[j], all[i].verb, all[i].path)
        {
          if i < n && j < n {
            assert Unique(routes, i) && all[i] == routes[i] && all[j] == routes[j];
          } else {
            var k := if i < n then i else j;
            assert all[k] == routes[k] && !Matching(routes[k], r.verb, r.path);
          }
        }
      }
    }
  }

  /** An index of at most 128 routes has an empty slot on every probe path. */
  lemma ProbesNeeded(routes: seq<Route>, h: nat) returns (f: nat)
    requires |routes| < HASH_SIZE && h < HASH_SIZE
    ensures InRange(Hashed(routes), |routes|)
    ensures f == Free(Hashed(routes), h, 0) < HASH_SIZE
  {
    HashedSound(routes);
    ProbingEnds(Hashed(routes), h);
    f := Free(Hashed(routes), h, 0);
  }

  lemma FirstEmpty(slots: seq<int>, h: nat, f: nat, n: nat)
    requires |slots| == HASH_SIZE && h < HASH_SIZE && f == Free(slots, h, 0) && n <= f < HASH_SIZE
    requires slots[Slot(h, n)] == EMPTY
    ensures n == f
  {
  }

  lemma StillUsed(slots: seq<int>, h: nat, f: nat, n: nat)
    requires |slots| == HASH_SIZE && h < HASH_SIZE && f == Free(slots, h, 0) && n <= f < HASH_SIZE
    requires slots[Slot(h, n)] != EMPTY
    ensures n < f
  {
  }

  lemma HashedNext(routes: seq<Route>, n: nat)
    requires |routes| == n + 1
    ensures Hashed(routes) == Inserted(Hashed(routes[..n]), HashKey(routes[n].verb, routes[n].path), n)
  {
  }

  // ---- the Allow header ------------------------------------------------------------------

  /** The methods that the search for repetitions still knows. */
  function Remembered(verbs: seq<string>): seq<string> {
    if |verbs| <= 16 then verbs else verbs[..16]
  }

  /** The methods listed for a path from the first i routes, in order. */
  function VerbsUpTo(routes: seq<Route>, path: string, i: nat): seq<string>
    requires i <= |routes|
  {
    if i == 0 then []
    else
      var verbs := VerbsUpTo(routes, path, i - 1);
      if routes[i - 1].path != path || routes[i - 1].verb in Remembered(verbs) then verbs
      else verbs + [routes[i - 1].verb]
  }

  function VerbsFor(routes: seq<Route>, path: string): seq<string> {
    VerbsUpTo(routes, path, |routes|)
  }

  lemma {:induction false} VerbsUpToMeans(routes: seq<Route>, path: string, i: nat, verb: string)
    requires i <= |routes|
    ensures verb in VerbsUpTo(routes, path, i) <==> exists j :: 0 <= j < i && Matching(routes[j], verb, path)
  {
    if i > 0 {
      VerbsUpToMeans(routes, path, i - 1, verb);
      assert Matching(routes[i - 1], verb, path) <==> routes[i - 1].path == path && routes[i - 1].verb == verb;
    }
  }

  /** The Allow header lists exactly the methods registered for the path. */
  lemma VerbsForMeans(routes: seq<Route>, path: string, verb: string)
    ensures verb in VerbsFor(routes, path) <==> Registered(routes, verb, path)
  {
    VerbsUpToMeans(routes, path, |routes|, verb);
  }

  /** And each only once, if keys are distinct or no more methods are listed than remembered. */
  lemma {:induction false} ListedOnce(routes: seq<Route>, path: string, i: nat)
    requires i <= |routes| && (Distinct(routes) || |VerbsUpTo(routes, path, i)| <= 16)
    ensures
      var verbs := VerbsUpTo(routes, path, i);
      forall j, k :: 0 <= j < k < |verbs| ==> verbs[j] != verbs[k]
  {
    if i > 0 {
      ListedOnce(routes, path, i - 1);
      if Distinct(routes) {
        assert Unique(routes, i - 1);
        VerbsUpToMeans(routes, path, i - 1, routes[i - 1].verb);
      }
    }
  }

  function JoinTwo(a: string, b: string): string {
    if a == "" then b else a + ", " + b
  }

  function Join(words: seq<string>): string {
    if words == [] then "" else JoinTwo(Join(words[..|words| - 1]), words[|words| - 1])
  }

  /** The header value for a path, as far as its field holds it. */
  function AllowValue(routes: seq<Route>, path: string): string {
    Cut(Join(VerbsFor(routes, path)), 255)
  }

  lemma AllowValueMeans(routes: seq<Route>, path: string)
    ensures AllowValue(routes, path) <= Join(VerbsFor(routes, path))
    ensures |Join(VerbsFor(routes, path))| < 256 ==> AllowValue(routes, path) == Join(VerbsFor(routes, path))
    ensures |AllowValue(routes, path)| < 256
  {
  }

  /** From the seventeenth method on a repetition is not noticed, unless it is of the first sixteen. */
  lemma LaterForgotten(routes: seq<Route>, path: string, i: nat)
    requires i < |routes| && routes[i].path == path && |VerbsUpTo(routes, path, i)| >= 16
    ensures
      var verbs := VerbsUpTo(routes, path, i);
      VerbsUpTo(routes, path, i + 1) == verbs + if routes[i].verb in verbs[..16] then [] else [routes[i].verb]
  {
  }

  lemma JoinLast(verbs: seq<string>, verb: string)
    ensures Join(verbs + [verb]) == JoinTwo(Join(verbs), verb)
  {
    assert (verbs + [verb])[..|verbs|] == verbs;
  }

  /** The words are separated by a comma and a blank. */
  lemma JoinMeans(verbs: seq<string>, verb: string)
    ensures Join([verb]) == verb
    ensures Join(verbs) != "" ==> Join(verbs + [verb]) == Join(verbs) + ", " + verb
  {
    JoinLast([], verb);
    JoinLast(verbs, verb);
    assert [] + [verb] == [verb];
  }

  lemma {:induction false} AllowGrows(routes: seq<Route>, path: string, i: nat)
    requires i <= |routes|
    ensures Join(VerbsUpTo(routes, path, i)) <= Join(VerbsFor(routes, path))
    decreases |routes| - i
  {
    if i < |routes| {
      JoinLast(VerbsUpTo(routes, path, i), routes[i].verb);
      AllowGrows(routes, path, i + 1);
    }
  }

  /** A full buffer is what it will be in the end. */
  lemma AllowFull(routes: seq<Route>, path: string, i: nat)
    requires i <= |routes| && |Join(VerbsUpTo(routes, path, i))| >= 255
    ensures Cut(Join(VerbsUpTo(routes, path, i)), 255) == AllowValue(routes, path)
  {
    AllowGrows(routes, path, i);
  }

  // ---- the table -------------------------------------------------------------------------

  class Table {
    const exact: array<Route>
    var exactCount: nat
    const prefix: array<Route>
    var prefixCount: nat
    const hash: array<int>

    ghost predicate Shape()
      reads this
    {
      && exact.Length == prefix.Length == MAX_ROUTES && hash.Length == HASH_SIZE && exact != prefix
      && exactCount <= MAX_ROUTES && prefixCount <= MAX_ROUTES
    }

    ghost function Exact(): seq<Route>
      reads this, exact
      requires Shape()
    {
      exact[..exactCount]
    }

    ghost function Prefix(): seq<Route>
      reads this, prefix
      requires Shape()
    {
      prefix[..prefixCount]
    }

    ghost predicate Valid()
      reads this, exact, prefix, hash
    {
      Shape() && hash[..] == Hashed(Exact())
    }

    constructor ()
      ensures Valid() && Exact() == [] && Prefix() == []
      ensures fresh(exact) && fresh(prefix) && fresh(hash)
    {
      exact := new Route[MAX_ROUTES](_ => Plain("", ""));
      prefix := new Route[MAX_ROUTES](_ => Plain("", ""));
      hash := new int[HASH_SIZE](_ => EMPTY);
      exactCount, prefixCount := 0, 0;
      new;
      assert hash[..] == seq(HASH_SIZE, _ => EMPTY);
    }

    method IsRegistered(entries: array<Route>, count: nat, verb: string, path: string) returns (dup: bool)
      requires count <= entries.Length
      ensures dup <==> Registered(entries[..count], verb, path)
    {
      var i := 0;
      while i < count
        invariant i <= count && !Registered(entries[..i], verb, path)
      {
        if entries[i].path == path && entries[i].verb == verb {
          assert Matching(entries[..count][i], verb, path);
          return true;
        }
        i := i + 1;
      }
      dup := false;
    }

    method HashInit()
      requires Shape()
      modifies hash
      ensures hash[..] == Hashed([])
    {
      var i := 0;
      while i < HASH_SIZE
        invariant i <= HASH_SIZE && forall k :: 0 <= k < i ==> hash[k] == EMPTY
      {
        hash[i] := EMPTY;
        i := i + 1;
      }
    }

    method HashInsert(i: nat)
      requires Shape() && i < exactCount && hash[..] == Hashed(exact[..i])
      modifies hash
      ensures hash[..] == Hashed(exact[..i + 1])
    {
      ghost var slots := hash[..];
      var h := HashKey(exact[i].verb, exact[i].path);
      ghost var home := h;
      ghost var f := ProbesNeeded(exact[..i], home);
      ghost var n := 0;
      while hash[h] != EMPTY
        invariant n <= f && h == Slot(home, n) && hash[..] == slots
        decreases f - n
      {
        assert slots[h] != EMPTY;
        StillUsed(slots, home, f, n);
        SlotNext(home, n);
        h := (h + 1) % HASH_SIZE;
        n := n + 1;
      }
      assert slots[h] == EMPTY;
      FirstEmpty(slots, home, f, n);
      hash[h] := i;
      assert hash[..] == slots[h := i];
      HashedNext(exact[..i + 1], i);
      assert exact[..i + 1][..i] == exact[..i];
    }

    method Add(verb: string, path: string, kind: MatchType, handler: int, realm: string, role: string)
      returns (rc: int)
      requires Valid()
      modifies this, exact, prefix, hash
      ensures Valid()
      ensures
        var known := if kind.MatchExact? then old(Exact()) else old(Prefix());
        rc == if |known| < 128 && !Registered(known, verb, path) then 0 else -1
      ensures
        var added := if rc == 0 then [Stored(verb, path, handler, realm, role)] else [];
        && Exact() == old(Exact()) + (if kind.MatchExact? then added else [])
        && Prefix() == old(Prefix()) + (if kind.MatchPrefix? then added else [])
      ensures rc == 0 && FitsEntry(verb, path, realm, role) ==>
        && (kind.MatchExact? ==> Exact() == old(Exact()) + [Route(path, verb, handler, realm, role)])
        && (kind.MatchPrefix? ==> Prefix() == old(Prefix()) + [Route(path, verb, handler, realm, role)])
    {
      StoredMeans(verb, path, handler, realm, role);
      var e := Stored(verb, path, handler, realm, role);
      if kind.MatchExact? {
        if exactCount >= MAX_ROUTES {
          return -1;
        }
        var dup := IsRegistered(exact, exactCount, verb, path);
        if dup {
          return -1;
        }
        exact[exactCount] := e;
        exactCount := exactCount + 1;
        Rehash();
      } else {
        if prefixCount >= MAX_ROUTES {
          return -1;
        }
        var dup := IsRegistered(prefix, prefixCount, verb, path);
        if dup {
          return -1;
        }
        prefix[prefixCount] := e;
        prefixCount := prefixCount + 1;
      }
      rc := 0;
    }

    method Rehash()
      requires Shape()
      modifies hash
      ensures hash[..] == Hashed(Exact())
    {
      HashInit();
      assert exact[..0] == [];
      var i := 0;
      while i < exactCount
        invariant i <= exactCount && hash[..] == Hashed(exact[..i])
      {
        HashInsert(i);
        i := i + 1;
      }
    }

    method HashLookup(verb: string, path: string) returns (r: Lookup)
      requires Valid()
      ensures r == Resolve(Exact(), verb, path)
    {
      ghost var routes := Exact();
      ghost var slots := hash[..];
      var h := HashKey(verb, path);
      ghost var home := h;
      ghost var f := ProbesNeeded(routes, home);
      ghost var n := 0;
      while hash[h] != EMPTY
        invariant n <= f && h == Slot(home, n)
        invariant LookUp(slots, routes, verb, path, n) == Resolve(routes, verb, path)
        decreases f - n
      {
        var i := hash[h];
        assert slots[h] == i && routes[i] == exact[i];
        StillUsed(slots, home, f, n);
        if exact[i].path == path {
          return if exact[i].verb == verb then Hit(i) else OtherVerb;
        }
        SlotNext(home, n);
        h := (h + 1) % HASH_SIZE;
        n := n + 1;
      }
      assert slots[h] == EMPTY;
      r := Miss;
    }

    /** The Allow value: each method once, at most sixteen of them remembered as seen. */
    method BuildAllow(kind: MatchType, path: string) returns (buf: string)
      requires Valid()
      ensures
        var routes := if kind.MatchExact? then Exact() else Prefix();
        buf == AllowValue(routes, path)
    {
      if kind.MatchExact? {
        buf := CollectAllow(exact, exactCount, path);
      } else {
        buf := CollectAllow(prefix, prefixCount, path);
      }
    }

    method CollectAllow(entries: array<Route>, count: nat, path: string) returns (buf: string)
      requires count <= entries.Length
      ensures buf == AllowValue(entries[..count], path)
    {
      ghost var routes := entries[..count];
      ghost var verbs: seq<string> := [];
      var seen: seq<string> := [];
      var offset := 0;
      buf := "";
      var i := 0;
      while i < count
        invariant i <= count && offset < 256 && verbs == VerbsUpTo(routes, path, i)
        invariant seen == Remembered(verbs)
        invariant offset == |Join(verbs)| && buf == Cut(Join(verbs), 255)
      {
        if entries[i].path == path && entries[i].verb !in seen {
          var verb := entries[i].verb;
          JoinLast(verbs, verb);
          if |seen| < 16 {
            seen := seen + [verb];
          }
          buf, offset := AppendVerb(buf, offset, verb, Join(verbs));
          verbs := verbs + [verb];
          if offset >= 256 {
            AllowFull(routes, path, i + 1);
            return;
          }
        }
        i := i + 1;
      }
    }

    /** One snprintf into the rest of the buffer; the offset counts what would have been written. */
    method AppendVerb(buf: string, offset: nat, verb: string, ghost joined: string)
      returns (buf': string, offset': nat)
      ensures offset == |joined| && buf == Cut(joined, 255) && offset < 256 ==>
                offset' == |JoinTwo(joined, verb)| && buf' == Cut(JoinTwo(joined, verb), 255)
    {
      var part := if offset > 0 then ", " + verb else verb;
      buf' := Cut(buf + part, 255);
      offset' := offset + |part|;
      assert ", " + verb != "" && joined + (", " + verb) == joined + ", " + verb;
    }

    /** Whether the pattern begins the path; the tail goes into the buffer passed along. */
    method PathMatchesPrefix(pattern: string, path: string, buffer: string) returns (hit: bool, captured: string)
      ensures hit <==> Matches(pattern, path)
      ensures hit <==> pattern != "" && exists tail :: path == pattern + tail
      ensures hit ==> captured == Cut(path[|pattern|..], PATH_ROOM)
      ensures hit && |path| <= PATH_ROOM ==> pattern + captured == path
    {
      MatchesMeans(pattern, path);
      if |pattern| == 0 {
        return false, buffer;
      }
      if !(pattern <= path) {
        return false, "";
      }
      return true, Cut(path[|pattern|..], PATH_ROOM);
    }

    method Find(verb: string, path: string) returns (result: Found)
      requires Valid()
      ensures
        var r := Resolve(Exact(), verb, path);
        r.Hit? ==> r.index < |Exact()| && result == Found(Some(Exact()[r.index]), "", false, "")
      ensures Resolve(Exact(), verb, path).OtherVerb? ==>
                && result.entry.None? && result.is405
                && result.allow == AllowValue(Exact(), path)
      ensures Resolve(Exact(), verb, path).Miss? ==> ScanResult(Prefix(), verb, path, result)
    {
      var i := HashLookup(verb, path);
      match i {
        case Hit(index) =>
          HitIsEntry(Exact(), verb, path);
          return Found(Some(exact[index]), "", false, "");
        case OtherVerb =>
          var allow := BuildAllow(MatchExact, path);
          return Found(None, "", true, allow);
        case Miss =>
          result := ScanPrefixes(verb, path);
      }
    }

    method ScanPrefixes(verb: string, path: string) returns (result: Found)
      requires Valid()
      ensures ScanResult(Prefix(), verb, path, result)
    {
      ghost var routes := Prefix();
      result := Found(None, "", false, "");
      var i := 0;
      while i < prefixCount
        invariant i <= prefixCount && result.entry.None?
        invariant forall j :: 0 <= j < i ==> !(Matches(routes[j].path, path) && routes[j].verb == verb)
        invariant result.is405 <==> exists j :: 0 <= j < i && Matches(routes[j].path, path)
        invariant result.is405 ==>
                    exists j: nat ::
                      j < i && FirstMatching(routes, path, j) && result.allow == AllowValue(routes, routes[j].path)
      {
        var e := prefix[i];
        assert e == routes[i];
        var hit, captured := PathMatchesPrefix(e.path, path, result.captured);
        result := result.(captured := captured);
        if hit {
          if e.verb == verb {
            result := result.(entry := Some(e), is405 := false);
            Served(routes, verb, path, i, result);
            return;
          }
          if !result.is405 {
            var allow := BuildAllow(MatchPrefix, e.path);
            result := result.(is405 := true, allow := allow);
            assert FirstMatching(routes, path, i);
          }
        }
        i := i + 1;
      }
    }

    /** 0 exactly for a table without unknown handlers and without repeated keys. */
    method Validate() returns (rc: int)
      requires Valid()
      ensures rc == if Sane(Exact()) && Sane(Prefix()) then 0 else -1
    {
      var e := CountErrors(exact, exactCount);
      var p := CountErrors(prefix, prefixCount);
      rc := if e + p > 0 then -1 else 0;
    }

    method CountErrors(entries: array<Route>, count: nat) returns (errors: nat)
      requires count <= entries.Length
      ensures errors == 0 <==> Sane(entries[..count])
    {
      ghost var routes := entries[..count];
      errors := 0;
      var i := 0;
      while i < count
        invariant i <= count
        invariant errors == 0 <==> forall k :: 0 <= k < i ==> SaneFrom(routes, k)
      {
        if entries[i].handler == HANDLER_NONE {
          errors := errors + 1;
        }
        ghost var sane := forall k :: 0 <= k < i ==> SaneFrom(routes, k);
        var j := i + 1;
        while j < count
          invariant i < j <= count
          invariant errors == 0 <==>
                    && sane && routes[i].handler != HANDLER_NONE
                    && forall k :: i < k < j ==> !Matching(routes[k], routes[i].verb, routes[i].path)
        {
          if entries[i].path == entries[j].path && entries[i].verb == entries[j].verb {
            assert Matching(routes[j], routes[i].verb, routes[i].path);
            errors := errors + 1;
          }
          j := j + 1;
        }
        assert errors == 0 <==> sane && SaneFrom(routes, i);
        i := i + 1;
      }
      SaneAll(routes);
    }
  }

  // ---- from adding to finding ------------------------------------------------------------

  /** No entry has the path. */
  ghost predicate NoneFor(routes: seq<Route>, path: string) {
    forall i :: 0 <= i < |routes| ==> routes[i].path != path
  }

  lemma AddedIsHit(routes: seq<Route>, r: Route)
    requires |routes| + 1 < HASH_SIZE && NoneFor(routes, r.path)
    ensures Resolve(routes + [r], r.verb, r.path) == Hit(|routes|)
  {
    LonePathFound(routes + [r], |routes|);
  }

  lemma AddedIsRegistered(routes: seq<Route>, r: Route)
    ensures Registered(routes + [r], r.verb, r.path)
  {
    assert Matching((routes + [r])[|routes|], r.verb, r.path);
  }

  /** An exact route that is added can be found, as it was given, if no other has its path. */
  method AddFindExact(t: Table, verb: string, path: string, handler: int, realm: string, role: string)
      returns (rc: int, result: Found)
    requires t.Valid() && FitsEntry(verb, path, realm, role)
    modifies t, t.exact, t.prefix, t.hash
    ensures t.Valid()
    ensures rc == 0 && NoneFor(old(t.Exact()), path) ==>
      result == Found(Some(Route(path, verb, handler, realm, role)), "", false, "")
  {
    ghost var before := t.Exact();
    ghost var r := Route(path, verb, handler, realm, role);
    rc := t.Add(verb, path, MatchExact, handler, realm, role);
    assert rc == 0 ==> t.Exact() == before + [r];
    result := t.Find(verb, path);
    if rc == 0 && NoneFor(before, path) {
      AddedIsHit(before, r);
    }
  }

  /** And no route whose path and method fit can be added twice. */
  method AddTwice(t: Table, verb: string, path: string, kind: MatchType, handler: int, realm: string, role: string)
      returns (rc: int, again: int)
    requires t.Valid() && FitsEntry(verb, path, realm, role)
    modifies t, t.exact, t.prefix, t.hash
    ensures t.Valid() && again == -1
  {
    ghost var known := if kind.MatchExact? then t.Exact() else t.Prefix();
    rc := t.Add(verb, path, kind, handler, realm, role);
    ghost var now := if kind.MatchExact? then t.Exact() else t.Prefix();
    ghost var r := Route(path, verb, handler, realm, role);
    assert now == if rc == 0 then known + [r] else known;
    AddedIsRegistered(known, r);
    assert |now| >= MAX_ROUTES || Registered(now, verb, path);
    again := t.Add(verb, path, kind, handler, realm, role);
  }

  lemma UnknownMisses(routes: seq<Route>, verb: string, path: string)
    requires |routes| < HASH_SIZE && NoneFor(routes, path)
    ensures Resolve(routes, verb, path) == Miss
  {
    assert forall i :: 0 <= i < |routes| ==> !Matching(routes[i], verb, path);
    UnregisteredLookUp(routes, verb, path);
  }

  /** No entry serves the request. */
  ghost predicate NoneServes(routes: seq<Route>, verb: string, path: string) {
    forall i :: 0 <= i < |routes| ==> !(Matches(routes[i].path, path) && routes[i].verb == verb)
  }

  lemma AddedServesFirst(routes: seq<Route>, r: Route, tail: string)
    requires r.path != "" && NoneServes(routes, r.verb, r.path + tail)
    ensures FirstServing(routes + [r], r.verb, r.path + tail, |routes|)
    ensures (routes + [r])[|routes|] == r && (r.path + tail)[|r.path|..] == tail
  {
    MatchesMeans(r.path, r.path + tail);
  }

  lemma LastServes(routes: seq<Route>, r: Route, tail: string, result: Found)
    requires r.path != "" && |tail| < 256 && NoneServes(routes, r.verb, r.path + tail)
    requires ScanResult(routes + [r], r.verb, r.path + tail, result)
    ensures result.entry == Some(r) && result.captured == tail && !result.is405
  {
    AddedServesFirst(routes, r, tail);
  }

  /** A prefix route that is added serves every path that it begins, and the rest of the path is
      captured, if no exact route has that path and no earlier prefix route serves it. */
  method AddFindPrefix(t: Table, verb: string, pattern: string, tail: string, handler: int, realm: string, role: string)
      returns (rc: int, result: Found)
    requires t.Valid() && FitsEntry(verb, pattern, realm, role) && pattern != "" && |tail| < 256
    modifies t, t.exact, t.prefix, t.hash
    ensures t.Valid()
    ensures rc == 0 && NoneFor(old(t.Exact()), pattern + tail) && NoneServes(old(t.Prefix()), verb, pattern + tail) ==>
      result.entry == Some(Route(pattern, verb, handler, realm, role)) && result.captured == tail && !result.is405
  {
    ghost var exact, before := t.Exact(), t.Prefix();
    ghost var r := Route(pattern, verb, handler, realm, role);
    rc := t.Add(verb, pattern, MatchPrefix, handler, realm, role);
    assert t.Exact() == exact && (rc == 0 ==> t.Prefix() == before + [r]);
    result := t.Find(verb, pattern + tail);
    if rc == 0 && NoneFor(exact, pattern + tail) && NoneServes(before, verb, pattern + tail) {
      UnknownMisses(exact, verb, pattern + tail);
      LastServes(before, r, tail, result);
    }
  }

  /** The outcome of scanning the prefix routes: the first entry that serves the request, and
      405 exactly if only entries of other methods match. */
  ghost predicate ScanResult(routes: seq<Route>, verb: string, path: string, result: Found) {
    && (result.entry.Some? <==> exists i :: FirstServing(routes, verb, path, i))
    && (forall i: nat :: FirstServing(routes, verb, path, i) ==>
          && result.entry == Some(routes[i]) && !result.is405
          && result.captured == Cut(path[|routes[i].path|..], PATH_ROOM)
          && (|path| <= PATH_ROOM ==> routes[i].path + result.captured == path))
    && (result.entry.None? ==>
          && (result.is405 <==> exists j :: 0 <= j < |routes| && Matches(routes[j].path, path))
          && (result.is405 ==>
                exists j: nat :: FirstMatching(routes, path, j) && result.allow == AllowValue(routes, routes[j].path)))
  }

  lemma Served(routes: seq<Route>, verb: string, path: string, i: nat, result: Found)
    requires FirstServing(routes, verb, path, i) && result.entry == Some(routes[i]) && !result.is405
    requires result.captured == Cut(path[|routes[i].path|..], PATH_ROOM)
    ensures ScanResult(routes, verb, path, result)
  {
    assert forall j: nat :: FirstServing(routes, verb, path, j) ==> j == i;
  }

  ghost predicate FirstMatching(routes: seq<Route>, path: string, i: nat) {
    && i < |routes| && Matches(routes[i].path, path)
    && forall j :: 0 <= j < i ==> !Matches(routes[j].path, path)
  }

  ghost predicate SaneFrom(routes: seq<Route>, i: nat)
    requires i < |routes|
  {
    && routes[i].handler != HANDLER_NONE
    && forall j :: i < j < |routes| ==> !Matching(routes[j], routes[i].verb, routes[i].path)
  }

  ghost predicate Sane(routes: seq<Route>) {
    Distinct(routes) && forall i :: 0 <= i < |routes| ==> routes[i].handler != HANDLER_NONE
  }

  lemma SaneMeans(routes: seq<Route>)
    ensures Sane(routes) <==> Distinct(routes) && forall r <- routes :: r.handler != -1
  {
    assert forall i :: 0 <= i < |routes| ==> routes[i] in routes;
  }

  lemma SaneAll(routes: seq<Route>)
    ensures Sane(routes) <==> forall i :: 0 <= i < |routes| ==> SaneFrom(routes, i)
  {
    if forall i :: 0 <= i < |routes| ==> SaneFrom(routes, i) {
      forall i | 0 <= i < |routes|
        ensures Unique(routes, i) && routes[i].handler != HANDLER_NONE
      {
        assert SaneFrom(routes, i);
        forall j | 0 <= j < |routes| && j != i
          ensures !Matching(routes[j], routes[i].verb, routes[i].path)
        {
          assert SaneFrom(routes, j);
        }
      }
    }
    if Sane(routes) {
      forall i | 0 <= i < |routes|
        ensures SaneFrom(routes, i)
      {
        assert Unique(routes, i);
      }
    }
  }
}
