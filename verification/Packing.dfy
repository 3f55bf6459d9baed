/**
 Texts of given sizes put one after the other into a buffer in which some bytes are used already:
 which of them fit, and which come so early that there is room to spare.
 */
module Packing {
  import opened Sums

  /** a can be obtained from b by leaving out elements. */
  predicate Subsequence<T(==)>(a: seq<T>, b: seq<T>) {
    if a == [] then true
    else if b == [] then false
    else (a[0] == b[0] && Subsequence(a[1..], b[1..])) || Subsequence(a, b[1..])
  }

  lemma {:induction false} SubsequenceRefl<T>(a: seq<T>)
    ensures Subsequence(a, a)
  {
    if a != [] {
      SubsequenceRefl(a[1..]);
    }
  }

  lemma {:induction false} SubsequenceConcat<T>(a: seq<T>, b: seq<T>, c: seq<T>, d: seq<T>)
    requires Subsequence(a, b) && Subsequence(c, d)
    ensures Subsequence(a + c, b + d)
    decreases |a| + |b|
  {
    if b == [] {
      assert a == [] && a + c == c && b + d == d;
    } else {
      assert (b + d)[0] == b[0] && (b + d)[1..] == b[1..] + d;
      if a == [] {
        assert a + c == c;
        SubsequenceConcat(a, b[1..], c, d);
        Skipped(c, b + d);
      } else if a[0] == b[0] && Subsequence(a[1..], b[1..]) {
        SubsequenceConcat(a[1..], b[1..], c, d);
        assert (a + c)[0] == a[0] && (a + c)[1..] == a[1..] + c;
      } else {
        SubsequenceConcat(a, b[1..], c, d);
      }
    }
  }

  lemma Skipped<T>(a: seq<T>, b: seq<T>)
    requires b != [] && Subsequence(a, b[1..])
    ensures Subsequence(a, b)
  {
  }

  lemma {:induction false} SubsequenceLength<T>(a: seq<T>, b: seq<T>)
    requires Subsequence(a, b)
    ensures |a| <= |b|
    decreases |b|
  {
    if a != [] {
      if a[0] == b[0] && Subsequence(a[1..], b[1..]) {
        SubsequenceLength(a[1..], b[1..]);
      } else {
        SubsequenceLength(a, b[1..]);
      }
    }
  }

  /** A part weighs no more than the whole. */
  lemma {:induction false} SubsequenceSum<T>(a: seq<T>, b: seq<T>, f: T -> nat)
    requires Subsequence(a, b)
    ensures Sum(a, f) <= Sum(b, f)
    decreases |b|
  {
    if b != [] {
      if a == [] {
        SubsequenceSum(a, b[1..], f);
      } else if a[0] == b[0] && Subsequence(a[1..], b[1..]) {
        SubsequenceSum(a[1..], b[1..], f);
      } else {
        SubsequenceSum(a, b[1..], f);
      }
    }
  }

  // ---- first come, first served ----------------------------------------------------------

  /** Those that end up in the buffer: each in turn, if there is room for it. */
  function Fitting<T>(us: seq<T>, size: T -> nat, used: nat, bufSize: int): seq<T> {
    if us == [] then []
    else if size(us[0]) < bufSize - used then [us[0]] + Fitting(us[1..], size, used + size(us[0]), bufSize)
    else Fitting(us[1..], size, used, bufSize)
  }

  /** The bytes used afterwards. */
  function Filled<T>(us: seq<T>, size: T -> nat, used: nat, bufSize: int): nat {
    used + Sum(Fitting(us, size, used, bufSize), size)
  }

  lemma SumFirst<T>(x: T, s: seq<T>, f: T -> nat)
    ensures Sum([x] + s, f) == f(x) + Sum(s, f)
  {
    assert ([x] + s)[1..] == s;
  }

  lemma FittingFirst<T>(us: seq<T>, size: T -> nat, used: nat, bufSize: int)
    requires us != []
    ensures
      var taken := size(us[0]) < bufSize - used;
      var used' := if taken then used + size(us[0]) else used;
      && Fitting(us, size, used, bufSize) == (if taken then [us[0]] else []) + Fitting(us[1..], size, used', bufSize)
      && Filled(us, size, used, bufSize) == Filled(us[1..], size, used', bufSize)
  {
    if size(us[0]) < bufSize - used {
      SumFirst(us[0], Fitting(us[1..], size, used + size(us[0]), bufSize), size);
    }
  }

  lemma {:induction false} FittingConcat<T>(a: seq<T>, b: seq<T>, size: T -> nat, used: nat, bufSize: int)
    ensures Fitting(a + b, size, used, bufSize)
         == Fitting(a, size, used, bufSize) + Fitting(b, size, Filled(a, size, used, bufSize), bufSize)
  {
    if a == [] {
      assert a + b == b;
    } else {
      assert (a + b)[0] == a[0] && (a + b)[1..] == a[1..] + b;
      FittingFirst(a, size, used, bufSize);
      FittingFirst(a + b, size, used, bufSize);
      FittingConcat(a[1..], b, size, if size(a[0]) < bufSize - used then used + size(a[0]) else used, bufSize);
    }
  }

  /** The buffer is never overrun, and the order is kept. */
  lemma {:induction false} FittingFits<T>(us: seq<T>, size: T -> nat, used: nat, bufSize: int)
    ensures Subsequence(Fitting(us, size, used, bufSize), us)
    ensures used < bufSize ==> Filled(us, size, used, bufSize) < bufSize
  {
    if us != [] {
      var rest := Fitting(us[1..], size, if size(us[0]) < bufSize - used then used + size(us[0]) else used, bufSize);
      FittingFirst(us, size, used, bufSize);
      FittingFits(us[1..], size, if size(us[0]) < bufSize - used then used + size(us[0]) else used, bufSize);
      if size(us[0]) < bufSize - used {
        assert ([us[0]] + rest)[1..] == rest;
      } else {
        Skipped(rest, us);
      }
    }
  }

  /** All of them end up in the buffer exactly if all of them fit. */
  lemma {:induction false} AllFitIff<T>(us: seq<T>, size: T -> nat, used: nat, bufSize: int)
    requires used < bufSize
    ensures Fitting(us, size, used, bufSize) == us <==> used + Sum(us, size) < bufSize
  {
    if us != [] {
      if size(us[0]) < bufSize - used {
        AllFitIff(us[1..], size, used + size(us[0]), bufSize);
        assert us == [us[0]] + us[1..];
      } else {
        FittingFits(us[1..], size, used, bufSize);
        SubsequenceLength(Fitting(us[1..], size, used, bufSize), us[1..]);
      }
    }
  }

  // ---- with room to spare ----------------------------------------------------------------

  /** The leading ones: those before which no more than the limit is reached. */
  function Leading<T>(us: seq<T>, size: T -> nat, used: nat, limit: int): seq<T> {
    if us == [] || used >= limit then [] else [us[0]] + Leading(us[1..], size, used + size(us[0]), limit)
  }

  lemma {:induction false} LeadingPrefix<T>(us: seq<T>, size: T -> nat, used: nat, limit: int)
    ensures Leading(us, size, used, limit) <= us
  {
    if us != [] && used < limit {
      LeadingPrefix(us[1..], size, used + size(us[0]), limit);
    }
  }

  lemma {:induction false} LeadingConcat<T>(a: seq<T>, b: seq<T>, size: T -> nat, used: nat, limit: int)
    ensures
      var r := Leading(a, size, used, limit);
      Leading(a + b, size, used, limit) == if r == a then a + Leading(b, size, used + Sum(a, size), limit) else r
  {
    if a == [] {
      assert a + b == b;
    } else if used < limit {
      assert (a + b)[0] == a[0] && (a + b)[1..] == a[1..] + b && a == [a[0]] + a[1..];
      LeadingConcat(a[1..], b, size, used + size(a[0]), limit);
    }
  }

  lemma {:induction false} AllLead<T>(us: seq<T>, size: T -> nat, used: nat, limit: int)
    requires used + Sum(us, size) < limit
    ensures Leading(us, size, used, limit) == us
  {
    if us != [] {
      AllLead(us[1..], size, used + size(us[0]), limit);
      assert us == [us[0]] + us[1..];
    }
  }

  /** Leading ones that are smaller than the spare room end up in the buffer. */
  lemma {:induction false} LeadingFit<T>(us: seq<T>, size: T -> nat, used: nat, bufSize: int, room: nat)
    requires forall u <- us :: size(u) < room
    ensures Leading(us, size, used, bufSize - room) <= Fitting(us, size, used, bufSize)
  {
    if us != [] && used < bufSize - room {
      assert us[0] in us && forall u <- us[1..] :: u in us;
      LeadingFit(us[1..], size, used + size(us[0]), bufSize, room);
    }
  }

  /** x and y are chosen from a and then b; if neither misses a leading one, nor do both together. */
  lemma LeadsConcat<T>(a: seq<T>, b: seq<T>, x: seq<T>, y: seq<T>, size: T -> nat, used: nat, bufSize: int, room: nat)
    requires Subsequence(x, a) && Leading(a, size, used, bufSize - room) <= x
    requires Leading(b, size, Filled(x, size, used, bufSize), bufSize - room) <= y
    ensures Leading(a + b, size, used, bufSize - room) <= x + y
  {
    LeadingConcat(a, b, size, used, bufSize - room);
    if Leading(a, size, used, bufSize - room) == a {
      SubsequenceLength(x, a);
      assert x == a;
      if used + Sum(a, size) < bufSize - room {
        AllFitIff(a, size, used, bufSize);
      }
    }
  }

  /** The same when all of m is chosen in between. */
  lemma LeadsThrough<T>(a: seq<T>, m: seq<T>, b: seq<T>, x: seq<T>, y: seq<T>, size: T -> nat, used: nat,
                        bufSize: int, room: nat)
    requires Subsequence(x, a) && Leading(a, size, used, bufSize - room) <= x
    requires Subsequence(y, b) && Leading(b, size, Filled(x + m, size, used, bufSize), bufSize - room) <= y
    ensures Subsequence(x + m + y, a + m + b) && Leading(a + m + b, size, used, bufSize - room) <= x + m + y
  {
    SubsequenceRefl(m);
    SubsequenceConcat(x, a, m, m);
    SubsequenceConcat(x + m, a + m, y, b);
    LeadingPrefix(m, size, Filled(x, size, used, bufSize), bufSize - room);
    LeadsConcat(a, m, x, m, size, used, bufSize, room);
    LeadsConcat(a + m, b, x + m, y, size, used, bufSize, room);
  }

  lemma FittingTwo<T>(u: T, v: T, size: T -> nat, used: nat, bufSize: int)
    requires size(u) < bufSize - used <= size(u) + size(v)
    ensures Fitting([u, v], size, used, bufSize) == [u]
  {
    FittingFirst([u, v], size, used, bufSize);
    FittingFirst([v], size, used + size(u), bufSize);
    assert [u, v][1..] == [v];
  }

  lemma FittingThen<T>(a: seq<T>, b: seq<T>, size: T -> nat, used: nat, used': nat, bufSize: int)
    requires used' == Filled(a, size, used, bufSize)
    ensures Fitting(a + b, size, used, bufSize) == Fitting(a, size, used, bufSize) + Fitting(b, size, used', bufSize)
  {
    FittingConcat(a, b, size, used, bufSize);
  }

  /** Where all together leave room to spare, a choice that misses no leading one is all. */
  lemma AllChosen<T>(us: seq<T>, x: seq<T>, size: T -> nat, used: nat, bufSize: int, room: nat)
    requires Subsequence(x, us) && Leading(us, size, used, bufSize - room) <= x
    requires used + Sum(us, size) < bufSize - room
    ensures x == us && Fitting(x, size, used, bufSize) == x
  {
    AllLead(us, size, used, bufSize - room);
    SubsequenceLength(x, us);
    AllFitIff(us, size, used, bufSize);
  }
}
