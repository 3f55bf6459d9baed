/** The singly linked list of users: which slots it visits, and what links say about them. */
module Chains {
  import opened UserData

  /** Following next links from slot `from` visits exactly these used slots, each once. */
  ghost predicate Linked(h: seq<ListNode>, from: nat, chain: seq<nat>)
    decreases |chain|
  {
    && from < |h| && from !in chain
    && if chain == [] then h[from].next == 0
       else
         && h[from].next == chain[0] && 0 < chain[0] < |h| && h[chain[0]].used
         && Linked(h, chain[0], chain[1..])
  }

  predicate Within(chain: seq<nat>, n: nat) {
    forall i :: 0 <= i < |chain| ==> 0 < chain[i] < n
  }

  lemma {:induction false} LinkedWithin(h: seq<ListNode>, from: nat, chain: seq<nat>)
    requires Linked(h, from, chain)
    ensures Within(chain, |h|)
    ensures forall i :: 0 <= i < |chain| ==> h[chain[i]].used && chain[i] != from
    decreases |chain|
  {
    if chain != [] {
      LinkedWithin(h, chain[0], chain[1..]);
      assert forall i :: 0 < i < |chain| ==> chain[i] == chain[1..][i - 1];
    }
  }

  /** The users of the chain, newest first. */
  function Contents(h: seq<ListNode>, chain: seq<nat>): (s: seq<User>)
    requires Within(chain, |h|)
    ensures |s| == |chain|
    ensures forall i :: 0 <= i < |s| ==> s[i] == h[chain[i]].data
  {
    seq(|chain|, i requires 0 <= i < |chain| => h[chain[i]].data)
  }

  /** The first slot of the chain whose user bears the name, or 0. */
  function SlotOf(h: seq<ListNode>, chain: seq<nat>, name: string): nat
    requires Within(chain, |h|)
  {
    if chain == [] then 0
    else if h[chain[0]].data.name == name then chain[0]
    else SlotOf(h, chain[1..], name)
  }

  function Without<T>(s: seq<T>, i: nat): seq<T>
    requires i < |s|
  {
    s[..i] + s[i + 1..]
  }

  /** The rest of a list may be reached from another slot, and survives writes elsewhere. */
  lemma {:induction false} Relinked(h: seq<ListNode>, h': seq<ListNode>, from: nat, to: nat, chain: seq<nat>)
    requires Linked(h, from, chain) && |h'| == |h|
    requires to < |h| && h'[to].next == h[from].next && to !in chain
    requires forall i :: 0 <= i < |chain| && chain[i] < |h| ==> h'[chain[i]] == h[chain[i]]
    ensures Linked(h', to, chain)
    ensures Within(chain, |h|) && Contents(h', chain) == Contents(h, chain)
    decreases |chain|
  {
    LinkedWithin(h, from, chain);
    if chain != [] {
      Relinked(h, h', chain[0], chain[0], chain[1..]);
    }
  }

  /** Linking a fresh slot in behind slot `from`. */
  lemma Prepended(h: seq<ListNode>, h': seq<ListNode>, from: nat, chain: seq<nat>, n: nat)
    requires Linked(h, from, chain) && |h'| == |h| && 0 < n < |h| && n !in chain && n != from
    requires h'[from].next == n && h'[n].used && h'[n].next == h[from].next
    requires forall i :: 0 <= i < |h| && i != n && i != from ==> h'[i] == h[i]
    ensures Linked(h', from, [n] + chain)
    ensures Within([n] + chain, |h|) && Within(chain, |h|)
    ensures Contents(h', [n] + chain) == [h'[n].data] + Contents(h, chain)
  {
    Relinked(h, h', from, n, chain);
    assert ([n] + chain)[1..] == chain;
    LinkedWithin(h', from, [n] + chain);
  }

  /** The writes that bypass position i of a list. */
  ghost predicate Bypass(h: seq<ListNode>, h': seq<ListNode>, from: nat, chain: seq<nat>, i: nat)
    requires i < |chain|
  {
    var prev, cur := if i == 0 then from else chain[i - 1], chain[i];
    && |h'| == |h| && prev < |h| && cur < |h|
    && h'[prev] == h[prev].(next := h[cur].next)
    && h'[cur] == h[cur].(used := false)
    && forall k :: 0 <= k < |h| && k != prev && k != cur ==> h'[k] == h[k]
  }

  lemma WithoutTail<T>(s: seq<T>, i: nat)
    requires 0 < i < |s|
    ensures Without(s, i) == [s[0]] + Without(s[1..], i - 1)
    ensures Without(s, i)[1..] == Without(s[1..], i - 1)
  {
  }

  lemma {:induction false} BypassedLinks(h: seq<ListNode>, h': seq<ListNode>, from: nat, chain: seq<nat>, i: nat)
    requires Linked(h, from, chain) && i < |chain| && Bypass(h, h', from, chain, i)
    ensures Linked(h', from, Without(chain, i))
    decreases |chain|
  {
    LinkedWithin(h, from, chain);
    var c, r := chain[0], chain[1..];
    LinkedWithin(h, c, r);
    if i == 0 {
      assert Without(chain, 0) == r;
      Relinked(h, h', c, from, r);
    } else {
      assert chain[i] == r[i - 1];
      BypassedLinks(h, h', c, r, i - 1);
      WithoutTail(chain, i);
      assert from !in Without(chain, i);
      assert h'[c].used;
    }
  }

  lemma Bypassed(h: seq<ListNode>, h': seq<ListNode>, from: nat, chain: seq<nat>, i: nat)
    requires Linked(h, from, chain) && i < |chain| && Bypass(h, h', from, chain, i)
    ensures Linked(h', from, Without(chain, i))
    ensures Within(chain, |h|) && Within(Without(chain, i), |h|)
    ensures Contents(h', Without(chain, i)) == Without(Contents(h, chain), i)
  {
    BypassedLinks(h, h', from, chain, i);
    LinkedWithin(h, from, chain);
    LinkedWithin(h', from, Without(chain, i));
    var s := Contents(h', Without(chain, i));
    forall k | 0 <= k < |s|
      ensures s[k] == Without(Contents(h, chain), i)[k]
    {
      assert Without(chain, i)[k] == chain[if k < i then k else k + 1];
    }
  }
}
