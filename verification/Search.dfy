/** Multi-field search through the tree index (src/user_store.c). */
module Search {
  import opened Basics
  import opened Sums
  import opened Packing
  import opened Names
  import opened Ordering
  import opened Trees
  import opened Pools
  import opened UserData
  import opened Chains
  import opened UserStore

  function Lower(c: char): char {
    if 'A' <= c <= 'Z' then c + 32 as char else c
  }

  /** c is the capital letter for d. */
  predicate CapitalOf(c: char, d: char) {
    65 <= c as int <= 90 && d as int == c as int + 32
  }

  /** The same character, or the two cases of one letter. */
  predicate SameLetter(c: char, d: char) {
    c == d || CapitalOf(c, d) || CapitalOf(d, c)
  }

  lemma LowerSame(c: char, d: char)
    ensures Lower(c) == Lower(d) <==> SameLetter(c, d)
  {
  }

  predicate SameLetters(a: string, b: string) {
    |a| == |b| && forall i :: 0 <= i < |a| ==> SameLetter(a[i], b[i])
  }

  /** query occurs in text at position i, up to the case of letters. */
  predicate OccursAt(text: string, query: string, i: nat) {
    i + |query| <= |text| && SameLetters(text[i..i + |query|], query)
  }

  /** The case of letters does not matter, neither in the text nor in the query. */
  lemma CaseIgnored(text: string, text': string, query: string, query': string)
    requires SameLetters(text, text') && SameLetters(query, query') && Occurs(text, query)
    ensures Occurs(text', query')
  {
    var i :| 0 <= i <= |text| && OccursAt(text, query, i);
    var n := |query|;
    forall j | 0 <= j < n
      ensures SameLetter(text'[i..i + n][j], query'[j])
    {
      assert SameLetter(text[i + j], text'[i + j]) && SameLetter(query[j], query'[j]);
      assert SameLetter(text[i..i + n][j], query[j]);
    }
    assert OccursAt(text', query', i);
  }

  predicate Occurs(text: string, query: string) {
    exists i :: 0 <= i <= |text| && OccursAt(text, query, i)
  }

  method StrContains(text: string, query: string) returns (found: bool)
    ensures found <==> Occurs(text, query)
  {
    if |query| == 0 {
      assert OccursAt(text, query, 0);
      return true;
    }
    if |query| > |text| {
      return false;
    }
    var t := 0;
    while t < |text|
      invariant t <= |text|
      invariant forall i :: 0 <= i < t ==> !OccursAt(text, query, i)
    {
      var q := 0;
      while t + q < |text| && q < |query| && Lower(text[t + q]) == Lower(query[q])
        invariant t + q <= |text| && q <= |query|
        invariant forall j :: 0 <= j < q ==> SameLetter(text[t + j], query[j])
      {
        LowerSame(text[t + q], query[q]);
        q := q + 1;
      }
      if q == |query| {
        assert OccursAt(text, query, t);
        return true;
      }
      OccursNot(text, query, t, q);
      t := t + 1;
    }
    return false;
  }

  lemma OccursNot(text: string, query: string, i: nat, q: nat)
    requires i < |text| && q < |query| && (i + q < |text| ==> Lower(text[i + q]) != Lower(query[q]))
    ensures !OccursAt(text, query, i)
  {
    if OccursAt(text, query, i) {
      OccursLetter(text, query, i, q);
    }
  }

  lemma OccursLetter(text: string, query: string, i: nat, q: nat)
    requires OccursAt(text, query, i) && q < |query|
    ensures i + q < |text| && Lower(text[i + q]) == Lower(query[q])
  {
    LowerSame(text[i + q], query[q]);
    assert SameLetter(text[i..i + |query|][q], query[q]);
  }

  datatype Criteria = Criteria(name: string, phone: string, mobile: string, email: string)

  /** All non-empty fields of the criteria occur in the user's fields. */
  predicate Matches(u: User, c: Criteria) {
    Occurs(u.name, c.name) && Occurs(u.phone, c.phone) && Occurs(u.mobile, c.mobile) && Occurs(u.email, c.email)
  }

  /** Each criterion looks at the field of its name, and an empty one admits every user. */
  lemma MatchesMeans(u: User, c: Criteria)
    ensures Matches(u, c) <==>
            && (c.name != "" ==> Occurs(u.name, c.name)) && (c.phone != "" ==> Occurs(u.phone, c.phone))
            && (c.mobile != "" ==> Occurs(u.mobile, c.mobile)) && (c.email != "" ==> Occurs(u.email, c.email))
  {
    EmptyOccurs(u.name);
    EmptyOccurs(u.phone);
    EmptyOccurs(u.mobile);
    EmptyOccurs(u.email);
  }

  method CriteriaMatch(u: User, c: Criteria) returns (matched: bool)
    ensures matched <==> Matches(u, c)
  {
    EmptyOccurs(u.name);
    EmptyOccurs(u.phone);
    EmptyOccurs(u.mobile);
    EmptyOccurs(u.email);
    var found := true;
    if c.name != "" {
      found := StrContains(u.name, c.name);
      if !found { return false; }
    }
    if c.phone != "" {
      found := StrContains(u.phone, c.phone);
      if !found { return false; }
    }
    if c.mobile != "" {
      found := StrContains(u.mobile, c.mobile);
      if !found { return false; }
    }
    if c.email != "" {
      found := StrContains(u.email, c.email);
      if !found { return false; }
    }
    return true;
  }

  lemma EmptyOccurs(text: string)
    ensures Occurs(text, "")
  {
    assert OccursAt(text, "", 0);
  }

  // ---- the traversal ---------------------------------------------------------------------

  /** The fields fit the arrays of the struct, NUL included. */
  predicate Fits(u: User) {
    |u.name| < 64 && |u.password| < 64 && |u.birthdate| < 16 && |u.phone| < 32 && |u.mobile| < 32 && |u.email| < 64
  }

  function Row(heading: string, value: string): string {
    "    <tr><td class=\"label\">" + heading + ":</td><td>" + value + "</td></tr>\n"
  }

  function Card(u: User): string {
    "<div class=\"result-card\">\n  <h2>" + u.name + "</h2>\n  <table>\n"
    + Row("Phone", u.phone) + Row("Birth", u.birthdate) + Row("Mobile", u.mobile) + Row("Email", u.email)
    + "  </table>\n</div>\n"
  }

  /** The text stands in the page from position i on. */
  predicate StandsAt(page: string, i: nat, text: string) {
    i + |text| <= |page| && page[i..i + |text|] == text
  }

  /** What stands in a part stands in the whole. */
  lemma StandsIn(page: string, before: string, part: string, after: string, k: nat, text: string)
    requires page == before + part + after && StandsAt(part, k, text)
    ensures StandsAt(page, |before| + k, text)
  {
    assert page[|before| + k..|before| + k + |text|] == part[k..k + |text|];
  }

  /** A row shows the label and behind it the value. */
  predicate Labels(page: string, i: nat, heading: string, value: string) {
    StandsAt(page, i, heading + ":</td><td>" + value + "</td>")
  }

  lemma RowLabels(heading: string, value: string)
    ensures Labels(Row(heading, value), 26, heading, value)
  {
    var text := heading + ":</td><td>" + value + "</td>";
    assert Row(heading, value) == "    <tr><td class=\"label\">" + text + "</tr>\n";
    assert StandsAt(text, 0, text);
    StandsIn(Row(heading, value), "    <tr><td class=\"label\">", text, "</tr>\n", 0, text);
  }

  lemma LabelsIn(page: string, before: string, row: string, after: string, i: nat, heading: string, value: string)
    requires page == before + row + after && Labels(row, i, heading, value)
    ensures Labels(page, |before| + i, heading, value)
  {
    StandsIn(page, before, row, after, i, heading + ":</td><td>" + value + "</td>");
  }

  lemma Sixfold(p: string, a: string, b: string, c: string, d: string, e: string)
    ensures p + a + b + c + d + e == p + a + (b + c + d + e)
    ensures p + a + b + c + d + e == (p + a) + b + (c + d + e)
    ensures p + a + b + c + d + e == (p + a + b) + c + (d + e)
  {
  }

  /** Where in a text of six parts the four in the middle stand. */
  lemma FourRows(page: string, p: string, e: string, u: User) returns (i: nat, j: nat, k: nat, l: nat)
    requires
      page == p + Row("Phone", u.phone) + Row("Birth", u.birthdate) + Row("Mobile", u.mobile) + Row("Email", u.email) + e
    ensures Labels(page, i, "Phone", u.phone) && Labels(page, j, "Birth", u.birthdate)
    ensures Labels(page, k, "Mobile", u.mobile) && Labels(page, l, "Email", u.email)
    ensures |p| + 26 <= i < j < k < l
  {
    var a, b, c, d := Row("Phone", u.phone), Row("Birth", u.birthdate), Row("Mobile", u.mobile), Row("Email", u.email);
    RowLabels("Phone", u.phone);
    RowLabels("Birth", u.birthdate);
    RowLabels("Mobile", u.mobile);
    RowLabels("Email", u.email);
    Sixfold(p, a, b, c, d, e);
    LabelsIn(page, p, a, b + c + d + e, 26, "Phone", u.phone);
    LabelsIn(page, p + a, b, c + d + e, 26, "Birth", u.birthdate);
    LabelsIn(page, p + a + b, c, d + e, 26, "Mobile", u.mobile);
    LabelsIn(page, p + a + b + c, d, e, 26, "Email", u.email);
    i, j, k, l := |p| + 26, |p + a| + 26, |p + a + b| + 26, |p + a + b + c| + 26;
  }

  lemma NameStands(start: string, name: string)
    requires start == "<div class=\"result-card\">\n  <h2>" + name + "</h2>\n  <table>\n"
    ensures StandsAt(start, 26, "  <h2>" + name + "</h2>")
  {
    var text := "  <h2>" + name + "</h2>";
    assert start == "<div class=\"result-card\">\n" + text + "\n  <table>\n";
    assert StandsAt(text, 0, text);
    StandsIn(start, "<div class=\"result-card\">\n", text, "\n  <table>\n", 0, text);
  }

  lemma StandsInStart(page: string, start: string, rest: string, k: nat, text: string)
    requires page == start + rest && StandsAt(start, k, text)
    ensures StandsAt(page, k, text)
  {
    assert page[k..k + |text|] == start[k..k + |text|];
  }

  lemma PartsShow(page: string, p: string, e: string, u: User) returns (i: nat, j: nat, k: nat, l: nat)
    requires p == "<div class=\"result-card\">\n  <h2>" + u.name + "</h2>\n  <table>\n"
    requires
      page == p + Row("Phone", u.phone) + Row("Birth", u.birthdate) + Row("Mobile", u.mobile) + Row("Email", u.email) + e
    ensures StandsAt(page, 26, "  <h2>" + u.name + "</h2>")
    ensures Labels(page, i, "Phone", u.phone) && Labels(page, j, "Birth", u.birthdate)
    ensures Labels(page, k, "Mobile", u.mobile) && Labels(page, l, "Email", u.email)
    ensures 26 < i < j < k < l
  {
    NameStands(p, u.name);
    StandsInStart(page, p, page[|p|..], 26, "  <h2>" + u.name + "</h2>");
    i, j, k, l := FourRows(page, p, e, u);
  }

  /** The name is the heading of the card, and each value stands behind its own label. */
  lemma CardShows(u: User) returns (i: nat, j: nat, k: nat, l: nat)
    ensures StandsAt(Card(u), 26, "  <h2>" + u.name + "</h2>")
    ensures Labels(Card(u), i, "Phone", u.phone) && Labels(Card(u), j, "Birth", u.birthdate)
    ensures Labels(Card(u), k, "Mobile", u.mobile) && Labels(Card(u), l, "Email", u.email)
    ensures 26 < i < j < k < l
  {
    var start, end := "<div class=\"result-card\">\n  <h2>" + u.name + "</h2>\n  <table>\n", "  </table>\n</div>\n";
    i, j, k, l := PartsShow(Card(u), start, end, u);
  }

  function CardList(us: seq<User>): (r: seq<string>)
    ensures |r| == |us| && forall i :: 0 <= i < |us| ==> r[i] == Card(us[i])
  {
    seq(|us|, i requires 0 <= i < |us| => Card(us[i]))
  }

  function Flat(texts: seq<string>): string {
    if texts == [] then "" else texts[0] + Flat(texts[1..])
  }

  /** The cards of some users, one after the other. */
  function Cards(us: seq<User>): string {
    Flat(CardList(us))
  }

  /** The matching users of a sequence of list slots, in order. */
  function Hits(slots: seq<nat>, h: seq<ListNode>, c: Criteria): seq<User>
    requires Within(slots, |h|)
  {
    if slots == [] then []
    else (if Matches(h[slots[0]].data, c) then [h[slots[0]].data] else []) + Hits(slots[1..], h, c)
  }

  lemma {:induction false} HitsConcat(a: seq<nat>, b: seq<nat>, h: seq<ListNode>, c: Criteria)
    requires Within(a, |h|) && Within(b, |h|)
    ensures Within(a + b, |h|) && Hits(a + b, h, c) == Hits(a, h, c) + Hits(b, h, c)
  {
    if a == [] {
      assert a + b == b;
    } else {
      HitsConcat(a[1..], b, h, c);
      assert (a + b)[1..] == a[1..] + b && (a + b)[0] == a[0];
    }
  }

  lemma {:induction false} FlatConcat(a: seq<string>, b: seq<string>)
    ensures Flat(a + b) == Flat(a) + Flat(b)
  {
    if a == [] {
      assert a + b == b;
    } else {
      FlatConcat(a[1..], b);
      assert (a + b)[1..] == a[1..] + b && (a + b)[0] == a[0];
    }
  }

  lemma CardsConcat(a: seq<User>, b: seq<User>)
    ensures Cards(a + b) == Cards(a) + Cards(b)
  {
    assert CardList(a + b) == CardList(a) + CardList(b);
    FlatConcat(CardList(a), CardList(b));
  }

  /** A result card takes less than the 512 bytes that a traversal finds free when it starts. */
  lemma CardLength(u: User)
    requires Fits(u)
    ensures 256 < |Card(u)| < 512
  {
    RowLength("Phone", u.phone);
    RowLength("Birth", u.birthdate);
    RowLength("Mobile", u.mobile);
    RowLength("Email", u.email);
  }

  lemma RowLength(heading: string, value: string)
    ensures |Row(heading, value)| == 47 + |heading| + |value|
  {
  }

  /** Every slot holds a user in use. */
  predicate AllUsed(slots: seq<nat>, h: seq<ListNode>) {
    Within(slots, |h|) && forall i :: 0 <= i < |slots| ==> h[slots[i]].used
  }

  lemma AllUsedConcat(a: seq<nat>, b: seq<nat>, h: seq<ListNode>)
    requires AllUsed(a + b, h)
    ensures AllUsed(a, h) && AllUsed(b, h)
  {
    assert forall i :: 0 <= i < |a| ==> a[i] == (a + b)[i];
    assert forall i :: 0 <= i < |b| ==> b[i] == (a + b)[|a| + i];
  }

  lemma UsersOfNode(t: Tree)
    requires t.Node?
    ensures UsersOf(Inorder(t)) == UsersOf(Inorder(t.left)) + [t.e.user] + UsersOf(Inorder(t.right))
  {
  }

  // ---- what is counted and what is shown -------------------------------------------------

  lemma CardsFirst(us: seq<User>)
    requires us != []
    ensures Cards(us) == Card(us[0]) + Cards(us[1..])
  {
    assert us == [us[0]] + us[1..];
    CardsConcat([us[0]], us[1..]);
    OneCard(us[0]);
  }

  /** What a card takes. */
  function CardSize(u: User): nat {
    |Card(u)|
  }

  lemma {:induction false} CardsSize(us: seq<User>)
    ensures |Cards(us)| == Sum(us, CardSize)
  {
    if us != [] {
      CardsFirst(us);
      CardsSize(us[1..]);
    }
  }

  /** The matches that a traversal counts, when some bytes are used at its start: whether there
      is room is asked on the way down, not again on the way up. */
  function Counted(t: Tree, h: seq<ListNode>, c: Criteria, used: nat, bufSize: int): seq<User>
    requires Within(UsersOf(Inorder(t)), |h|)
  {
    if t.Leaf? || used >= bufSize - 512 then []
    else
      UsersOfNode(t);
      WithinNode(UsersOf(Inorder(t.left)), t.e.user, UsersOf(Inorder(t.right)), |h|);
      var us := Counted(t.left, h, c, used, bufSize) + Hits([t.e.user], h, c);
      us + Counted(t.right, h, c, Filled(us, CardSize, used, bufSize), bufSize)
  }

  lemma WithinNode(a: seq<nat>, u: nat, b: seq<nat>, n: nat)
    requires Within(a + [u] + b, n)
    ensures Within(a, n) && Within([u], n) && Within(b, n)
  {
    var s := a + [u] + b;
    assert forall i :: 0 <= i < |a| ==> a[i] == s[i];
    assert s[|a|] == u;
    assert forall i :: 0 <= i < |b| ==> b[i] == s[|a| + 1 + i];
  }

  /** Only matches are counted, in order, and all those that lead. */
  ghost predicate Counts(hits: seq<User>, matches: seq<User>, used: nat, bufSize: int) {
    Subsequence(hits, matches) && Leading(matches, CardSize, used, bufSize - 512) <= hits
  }

  lemma CountsThrough(a: seq<User>, m: seq<User>, b: seq<User>, x: seq<User>, y: seq<User>, used: nat, bufSize: int)
    requires Counts(x, a, used, bufSize) && Counts(y, b, Filled(x + m, CardSize, used, bufSize), bufSize)
    ensures Counts(x + m + y, a + m + b, used, bufSize)
  {
    LeadsThrough(a, m, b, x, y, CardSize, used, bufSize, 512);
  }

  lemma {:induction false} CountedMeans(t: Tree, h: seq<ListNode>, c: Criteria, used: nat, bufSize: int)
    requires Within(UsersOf(Inorder(t)), |h|)
    ensures Counts(Counted(t, h, c, used, bufSize), Hits(UsersOf(Inorder(t)), h, c), used, bufSize)
  {
    if t.Node? && used < bufSize - 512 {
      var a, u, b := UsersOf(Inorder(t.left)), [t.e.user], UsersOf(Inorder(t.right));
      UsersOfNode(t);
      WithinNode(a, t.e.user, b, |h|);
      var x := Counted(t.left, h, c, used, bufSize);
      var us := x + Hits(u, h, c);
      var y := Counted(t.right, h, c, Filled(us, CardSize, used, bufSize), bufSize);
      CountedMeans(t.left, h, c, used, bufSize);
      CountedMeans(t.right, h, c, Filled(us, CardSize, used, bufSize), bufSize);
      HitsConcat(a, u, h, c);
      HitsConcat(a + u, b, h, c);
      CountsThrough(Hits(a, h, c), Hits(u, h, c), Hits(b, h, c), x, y, used, bufSize);
    }
  }

  /** Where no more than 512 bytes are free, a subtree is not entered; else its root is asked. */
  lemma CountedIffRoom(t: Tree, h: seq<ListNode>, c: Criteria, used: nat, bufSize: int)
    requires Within(UsersOf(Inorder(t)), |h|)
    ensures bufSize - used <= 512 ==> Counted(t, h, c, used, bufSize) == []
    ensures bufSize - used > 512 && t.Node? && t.e.user < |h| && Matches(h[t.e.user].data, c) ==>
      h[t.e.user].data in Counted(t, h, c, used, bufSize)
  {
    if t.Node? {
      UsersOfNode(t);
      WithinNode(UsersOf(Inorder(t.left)), t.e.user, UsersOf(Inorder(t.right)), |h|);
      assert [t.e.user][0] == t.e.user;
      HitOf(t.e.user, h, c);
    }
  }

  /** Leading users are not only counted but shown. */
  lemma LeadingShown(us: seq<User>, used: nat, bufSize: int)
    requires forall u <- us :: Fits(u)
    ensures Leading(us, CardSize, used, bufSize - 512) <= Fitting(us, CardSize, used, bufSize)
  {
    forall u | u in us
      ensures CardSize(u) < 512
    {
      CardLength(u);
    }
    LeadingFit(us, CardSize, used, bufSize, 512);
  }

  /** But a match may be counted and not shown: that of the root, when the left subtree has left
      too little room for it. */
  lemma CountedNotShown(t: Tree, h: seq<ListNode>, c: Criteria, u: User, v: User, used: nat, bufSize: int)
    requires t.Node? && t.right.Leaf? && t.left.Node? && t.left.left.Leaf? && t.left.right.Leaf?
    requires 0 < t.left.e.user < |h| && 0 < t.e.user < |h|
    requires h[t.left.e.user].data == u && h[t.e.user].data == v && Matches(u, c) && Matches(v, c)
    requires used + 512 < bufSize && CardSize(u) < bufSize - used <= CardSize(u) + CardSize(v)
    ensures Inorder(t) == [t.left.e, t.e] && Within(UsersOf(Inorder(t)), |h|)
    ensures Counted(t, h, c, used, bufSize) == [u, v] && Fitting([u, v], CardSize, used, bufSize) == [u]
  {
    var a, b := t.left.e.user, t.e.user;
    assert Inorder(t) == [t.left.e, t.e] && UsersOf(Inorder(t)) == [a, b];
    assert Inorder(t.left) == [t.left.e] && UsersOf(Inorder(t.left)) == [a];
    HitOf(a, h, c);
    HitOf(b, h, c);
    assert Counted(t.left, h, c, used, bufSize) == [u];
    FittingTwo(u, v, CardSize, used, bufSize);
    assert [u] + [v] == [u, v];
  }

  /** Such as with 513 bytes left at the start. */
  lemma SmallRoom(u: User, v: User, used: nat, bufSize: int)
    requires Fits(u) && Fits(v) && bufSize == used + 513
    ensures used + 512 < bufSize && CardSize(u) < bufSize - used <= CardSize(u) + CardSize(v)
  {
    CardLength(u);
    CardLength(v);
  }

  lemma HitOf(slot: nat, h: seq<ListNode>, c: Criteria)
    requires 0 < slot < |h|
    ensures Hits([slot], h, c) == if Matches(h[slot].data, c) then [h[slot].data] else []
  {
    assert [slot][0] == slot && [slot][1..] == [];
  }

  /** snprintf shows as much of the text as leaves one byte for the terminating zero, and counts
      it as written only if that is all. */
  lemma ShownMeans(out: string, text: string, bufSize: int)
    requires |out| < bufSize
    ensures out <= Shown(out, text, bufSize) <= out + text
    ensures |Shown(out, text, bufSize)| == Min(|out| + |text|, bufSize - 1)
    ensures Advanced(out, text, bufSize) == if |out| + |text| + 1 <= bufSize then out + text else out
  {
  }

  // ---- the traversal in the buffer -------------------------------------------------------

  /** The text after, when the cards of some users are due. */
  ghost predicate Written(us: seq<User>, before: string, after: string, bufSize: int) {
    after == before + Cards(Fitting(us, CardSize, |before|, bufSize))
  }

  lemma CardsOneByOne(us: seq<User>, a: seq<User>, b: seq<User>, before: string)
    requires us == a + b
    ensures before + Cards(us) == before + Cards(a) + Cards(b)
  {
    CardsConcat(a, b);
    Assoc(before, Cards(a), Cards(b));
  }

  lemma WrittenConcat(a: seq<User>, b: seq<User>, s0: string, s1: string, s2: string, bufSize: int)
    requires Written(a, s0, s1, bufSize) && Written(b, s1, s2, bufSize)
    ensures Written(a + b, s0, s2, bufSize) && |s1| == Filled(a, CardSize, |s0|, bufSize)
  {
    var x := Fitting(a, CardSize, |s0|, bufSize);
    CardsSize(x);
    FittingThen(a, b, CardSize, |s0|, |s1|, bufSize);
    CardsOneByOne(Fitting(a + b, CardSize, |s0|, bufSize), x, Fitting(b, CardSize, |s1|, bufSize), s0);
  }

  /** So many users, and the text after. */
  ghost predicate Collected(us: seq<User>, count: nat, before: string, after: string, bufSize: int) {
    count == |us| && Written(us, before, after, bufSize)
  }

  /** The subtrees and the node between them, with the texts after each. */
  lemma NodeCollected(t: Tree, h: seq<ListNode>, c: Criteria, bufSize: int, s0: string, s1: string, s2: string,
                      s3: string, n1: nat, n2: nat, n3: nat)
    requires Within(UsersOf(Inorder(t)), |h|) && t.Node? && |s0| < bufSize - 512
    requires Within(UsersOf(Inorder(t.left)), |h|) && Within([t.e.user], |h|) && Within(UsersOf(Inorder(t.right)), |h|)
    requires Collected(Counted(t.left, h, c, |s0|, bufSize), n1, s0, s1, bufSize)
    requires Collected(Hits([t.e.user], h, c), n2, s1, s2, bufSize)
    requires Collected(Counted(t.right, h, c, |s2|, bufSize), n3, s2, s3, bufSize)
    ensures Collected(Counted(t, h, c, |s0|, bufSize), n1 + n2 + n3, s0, s3, bufSize)
  {
    var x, m := Counted(t.left, h, c, |s0|, bufSize), Hits([t.e.user], h, c);
    WrittenConcat(x, m, s0, s1, s2, bufSize);
    WrittenConcat(x + m, Counted(t.right, h, c, |s2|, bufSize), s0, s2, s3, bufSize);
  }

  lemma NothingWritten(s: string, bufSize: int)
    ensures Written([], s, s, bufSize)
  {
    assert s + Cards([]) == s;
  }

  lemma OneCard(u: User)
    ensures Cards([u]) == Card(u)
  {
    assert CardList([u]) == [Card(u)];
    assert Flat([Card(u)]) == Card(u) + Flat([]);
  }

  /** What counts as written after one more text: all of it, or nothing if it does not fit. */
  function Advanced(out: string, text: string, bufSize: int): string {
    if |text| < bufSize - |out| then out + text else out
  }

  /** What a reader of the buffer finds: the text is cut off where the buffer ends. */
  function Shown(out: string, text: string, bufSize: int): string
    requires |out| < bufSize
  {
    out + if |text| < bufSize - |out| then text else text[..bufSize - |out| - 1]
  }

  /** Prints one matching user; snprintf reports the full width even when it truncates. */
  method Print(u: User, bufSize: int, out0: string) returns (out: string)
    ensures Written([u], out0, out, bufSize)
  {
    out := out0;
    var w := |Card(u)|;
    NothingWritten(out0, bufSize);
    OneCard(u);
    assert [u][1..] == [] && [u] + [] == [u];
    if w > 0 && w < bufSize - |out| {
      out := out + Card(u);
    }
  }

  method Visit(users: array<ListNode>, slot: nat, c: Criteria, bufSize: int, out0: string)
      returns (out: string, count: nat)
    requires 0 < slot < users.Length && users[slot].used
    ensures Collected(Hits([slot], users[..], c), count, out0, out, bufSize)
  {
    out, count := out0, 0;
    HitOf(slot, users[..], c);
    NothingWritten(out0, bufSize);
    var found := CriteriaMatch(users[slot].data, c);
    if users[slot].used && found {
      count := 1;
      out := Print(users[slot].data, bufSize, out);
    }
  }

  /** The recursive traversal, giving up a subtree when no more than 512 bytes are free. */
  method SearchInorder(nodes: array<TreeNode>, users: array<ListNode>, node: nat, c: Criteria,
                       bufSize: int, out0: string, ghost t: Tree, ghost p: nat)
      returns (out: string, count: nat)
    requires Rep(nodes[..], t, p) && node == Root(t) && AllUsed(UsersOf(Inorder(t)), users[..])
    ensures Collected(Counted(t, users[..], c, |out0|, bufSize), count, out0, out, bufSize)
    decreases t
  {
    ghost var h := users[..];
    if node == 0 || |out0| >= bufSize - 512 {
      NothingWritten(out0, bufSize);
      return out0, 0;
    }
    UsersOfNode(t);
    ghost var a, b := UsersOf(Inorder(t.left)), UsersOf(Inorder(t.right));
    ghost var u := t.e.user;
    AllUsedConcat(a + [u], b, h);
    AllUsedConcat(a, [u], h);
    var s1, n1 := SearchInorder(nodes, users, nodes[node].left, c, bufSize, out0, t.left, t.e.id);
    var s2, n2 := s1, 0;
    assert [u][0] == u && nodes[node].user == u && nodes[node].used && 0 < u < users.Length;
    if nodes[node].used && nodes[node].user != 0 {
      s2, n2 := Visit(users, nodes[node].user, c, bufSize, s1);
    }
    var s3, n3 := SearchInorder(nodes, users, nodes[node].right, c, bufSize, s2, t.right, t.e.id);
    NodeCollected(t, h, c, bufSize, out0, s1, s2, s3, n1, n2, n3);
    out, count := s3, n1 + n2 + n3;
  }

  /** How often a user is among the hits: as often as the slots hold it, if it matches. */
  lemma {:induction false} HitsCount(slots: seq<nat>, h: seq<ListNode>, c: Criteria, u: User)
    requires Within(slots, |h|)
    ensures multiset(Hits(slots, h, c))[u] == if Matches(u, c) then multiset(Contents(h, slots))[u] else 0
  {
    if slots != [] {
      HitsCount(slots[1..], h, c, u);
      var first, rest := h[slots[0]].data, Contents(h, slots[1..]);
      assert Contents(h, slots) == [first] + rest;
      var hit := if Matches(first, c) then [first] else [];
      assert Hits(slots, h, c) == hit + Hits(slots[1..], h, c);
    }
  }

  // ---- against the linked list -----------------------------------------------------------

  lemma {:induction false} HitsAt(slots: seq<nat>, i: nat, h: seq<ListNode>, c: Criteria)
    requires Within(slots, |h|) && i < |slots|
    ensures
      Within(Without(slots, i), |h|) &&
      multiset(Hits(slots, h, c)) == multiset(Hits([slots[i]], h, c)) + multiset(Hits(Without(slots, i), h, c))
  {
    var a, x, b := slots[..i], [slots[i]], slots[i + 1..];
    assert slots == a + x + b;
    HitsConcat(a, x, h, c);
    HitsConcat(a + x, b, h, c);
    HitsConcat(a, b, h, c);
  }

  /** Tree order and list order give the same matches. */
  lemma {:induction false} HitsPermuted(a: seq<nat>, b: seq<nat>, h: seq<ListNode>, c: Criteria)
    requires Within(a, |h|) && Within(b, |h|) && multiset(a) == multiset(b)
    ensures multiset(Hits(a, h, c)) == multiset(Hits(b, h, c))
    decreases |a|
  {
    if a == [] {
      assert |multiset(a)| == |a| && |multiset(b)| == |b|;
    } else {
      assert a[0] in multiset(a);
      var i :| 0 <= i < |b| && b[i] == a[0];
      assert Without(a, 0) == a[1..];
      WithoutMultiset(a, 0);
      WithoutMultiset(b, i);
      HitsAt(a, 0, h, c);
      HitsAt(b, i, h, c);
      HitsPermuted(a[1..], Without(b, i), h, c);
    }
  }

  predicate NameOrder(us: seq<User>) {
    forall i, j :: 0 <= i < j < |us| ==> Leq(us[i].name, us[j].name)
  }

  /** Every element of a subsequence has a place, and places keep their order. */
  lemma {:induction false} SubsequenceOrder(a: seq<User>, b: seq<User>)
    requires Subsequence(a, b) && NameOrder(b)
    ensures NameOrder(a) && forall x <- a :: x in b
    decreases |b|
  {
    if a != [] {
      assert forall x <- a :: x == a[0] || x in a[1..];
      assert forall x <- b[1..] :: x in b;
      assert forall i, j :: 0 <= i < j < |b| - 1 ==> b[1..][i] == b[i + 1] && b[1..][j] == b[j + 1];
      if a[0] == b[0] && Subsequence(a[1..], b[1..]) {
        SubsequenceOrder(a[1..], b[1..]);
        forall i, j | 0 <= i < j < |a|
          ensures Leq(a[i].name, a[j].name)
        {
          assert a[j] == a[1..][j - 1] && a[j] in b[1..];
          if i > 0 {
            assert a[i] == a[1..][i - 1];
          }
        }
      } else {
        SubsequenceOrder(a, b[1..]);
      }
    }
  }

  /** The hits of a sorted tree come out in name order. */
  lemma {:induction false} HitsSubsequence(slots: seq<nat>, h: seq<ListNode>, c: Criteria)
    requires Within(slots, |h|)
    ensures Subsequence(Hits(slots, h, c), Contents(h, slots))
  {
    if slots != [] {
      HitsSubsequence(slots[1..], h, c);
      var us := Contents(h, slots);
      assert us[1..] == Contents(h, slots[1..]) && us[0] == h[slots[0]].data;
      if Matches(us[0], c) {
        assert Hits(slots, h, c)[1..] == Hits(slots[1..], h, c);
      } else {
        assert Hits(slots, h, c) == Hits(slots[1..], h, c);
      }
    }
  }

  lemma TreeNameOrder(s: seq<Entry>, h: seq<ListNode>)
    requires Ordered(s, NamesOf(h))
    ensures Within(UsersOf(s), |h|) && NameOrder(Contents(h, UsersOf(s)))
  {
    assert forall i :: 0 <= i < |s| ==> s[i] in s;
  }

  lemma AllInUse(h: seq<ListNode>, chain: seq<nat>, slots: seq<nat>)
    requires Linked(h, 0, chain) && Within(chain, |h|) && multiset(slots) == multiset(chain)
    ensures AllUsed(slots, h)
  {
    LinkedWithin(h, 0, chain);
    forall i | 0 <= i < |slots|
      ensures 0 < slots[i] < |h| && h[slots[i]].used
    {
      assert slots[i] in multiset(slots);
      assert slots[i] in chain;
    }
  }

  /** What a search counts, against the matches that a scan of the list finds: matches in name
      order, all those that lead among them. */
  ghost predicate Found(matches: seq<User>, scanned: seq<User>, hits: seq<User>, used: nat, bufSize: int) {
    && multiset(matches) == multiset(scanned) && NameOrder(matches)
    && Counts(hits, matches, used, bufSize)
  }

  /** The hits are what the traversal counts; chain is the list. */
  ghost predicate Searched(t: Tree, chain: seq<nat>, h: seq<ListNode>, c: Criteria, hits: seq<User>, used: nat,
                           bufSize: int) {
    && Within(UsersOf(Inorder(t)), |h|) && Within(chain, |h|)
    && hits == Counted(t, h, c, used, bufSize)
    && Found(Hits(UsersOf(Inorder(t)), h, c), Hits(chain, h, c), hits, used, bufSize)
  }

  lemma TreeSearched(t: Tree, chain: seq<nat>, h: seq<ListNode>, c: Criteria, used: nat, bufSize: int)
    requires Ordered(Inorder(t), NamesOf(h)) && Within(chain, |h|)
    requires multiset(UsersOf(Inorder(t))) == multiset(chain)
    ensures
      Within(UsersOf(Inorder(t)), |h|) && Searched(t, chain, h, c, Counted(t, h, c, used, bufSize), used, bufSize)
  {
    var slots := UsersOf(Inorder(t));
    TreeNameOrder(Inorder(t), h);
    HitsPermuted(slots, chain, h, c);
    HitsSubsequence(slots, h, c);
    SubsequenceOrder(Hits(slots, h, c), Contents(h, slots));
    CountedMeans(t, h, c, used, bufSize);
  }

  /** The search between heading and footer. */
  method Traverse(store: Store, c: Criteria, heading: string, bufSize: int)
      returns (count: nat, out: string, ghost hits: seq<User>)
    requires store.Valid()
    ensures Searched(store.index.tree, store.chain, store.lists[..], c, hits, |heading|, bufSize)
    ensures count == |hits| && Written(hits, heading, out, bufSize)
  {
    ghost var h, t := store.lists[..], store.index.tree;
    AllInUse(h, store.chain, UsersOf(Inorder(t)));
    TreeSearched(t, store.chain, h, c, |heading|, bufSize);
    hits := Counted(t, h, c, |heading|, bufSize);
    out, count := SearchInorder(store.trees, store.lists, store.index.root, c, bufSize, heading, t, 0);
  }

  /** The page up to the footer. */
  function Page(hits: seq<User>, heading: string, noResults: string, bufSize: int): string {
    if hits == [] then Advanced(heading, noResults, bufSize)
    else heading + Cards(Fitting(hits, CardSize, |heading|, bufSize))
  }

  lemma PageFits(hits: seq<User>, heading: string, noResults: string, bufSize: int)
    requires |heading| < bufSize
    ensures |Page(hits, heading, noResults, bufSize)| < bufSize
  {
    FittingFits(hits, CardSize, |heading|, bufSize);
    CardsSize(Fitting(hits, CardSize, |heading|, bufSize));
  }

  /** The whole search: -1 if not even the heading fits; else the number of hits and the page as
      its reader finds it in the buffer, which may cut off the footer. */
  method UserStoreSearch(store: Store, c: Criteria, heading: string, noResults: string, footer: nat -> string,
                         bufSize: int)
      returns (count: int, page: string, ghost hits: seq<User>)
    requires store.Valid()
    ensures count == -1 <==> |heading| >= bufSize
    ensures count != -1 ==>
      && Searched(store.index.tree, store.chain, store.lists[..], c, hits, |heading|, bufSize)
      && count == |hits| && |Page(hits, heading, noResults, bufSize)| < bufSize
      && page == Shown(Page(hits, heading, noResults, bufSize), footer(count), bufSize)
  {
    if bufSize <= 0 || |heading| >= bufSize {
      return -1, "", [];
    }
    var out;
    count, out, hits := Traverse(store, c, heading, bufSize);
    PageFits(hits, heading, noResults, bufSize);
    if count == 0 {
      assert heading + Cards([]) == heading;
      out := Advanced(out, noResults, bufSize);
    }
    page := Shown(out, footer(count), bufSize);
  }

  // ---- what the caller can rely on -------------------------------------------------------

  /** Hits are matches that a scan would find, in name order, and no more of them. */
  lemma HitsAreMatches(matches: seq<User>, scanned: seq<User>, hits: seq<User>, used: nat, bufSize: int)
    requires Found(matches, scanned, hits, used, bufSize)
    ensures NameOrder(hits) && |hits| <= |scanned| && forall u <- hits :: u in scanned
  {
    SubsequenceOrder(hits, matches);
    SubsequenceLength(hits, matches);
    SameSize(matches, scanned);
  }

  /** Every match is counted and shown if the cards of what a scan finds leave more than 512
      bytes free. */
  lemma AllCounted(matches: seq<User>, scanned: seq<User>, hits: seq<User>, used: nat, bufSize: int)
    requires Found(matches, scanned, hits, used, bufSize) && used + |Cards(scanned)| < bufSize - 512
    ensures multiset(hits) == multiset(scanned) && Fitting(hits, CardSize, used, bufSize) == hits
  {
    assert used + Sum(matches, CardSize) < bufSize - 512 by {
      SameCards(matches, scanned);
    }
    AllChosen(matches, hits, CardSize, used, bufSize, 512);
  }

  /** What is counted is shown exactly if the cards of it fit. */
  lemma CountedShownIff(hits: seq<User>, used: nat, bufSize: int)
    requires used < bufSize
    ensures Fitting(hits, CardSize, used, bufSize) == hits <==> used + |Cards(hits)| < bufSize
  {
    CardsSize(hits);
    AllFitIff(hits, CardSize, used, bufSize);
  }

  /** So it is if the cards of what a scan finds fit. */
  lemma CountedShown(matches: seq<User>, scanned: seq<User>, hits: seq<User>, used: nat, bufSize: int)
    requires Found(matches, scanned, hits, used, bufSize) && used + |Cards(scanned)| < bufSize
    ensures Fitting(hits, CardSize, used, bufSize) == hits
  {
    SameCards(matches, scanned);
    SubsequenceSum(hits, matches, CardSize);
    AllFitIff(hits, CardSize, used, bufSize);
  }

  lemma SameCards(a: seq<User>, b: seq<User>)
    requires multiset(a) == multiset(b)
    ensures |Cards(a)| == |Cards(b)| == Sum(a, CardSize) == Sum(b, CardSize)
  {
    CardsSize(a);
    CardsSize(b);
    SumPermuted(a, b, CardSize);
  }

  /** What comes between heading and footer of a complete page. */
  function Body(hits: seq<User>, noResults: string): string {
    if hits == [] then noResults else Cards(hits)
  }

  /** So the page is complete where the page for what a scan finds leaves 512 bytes for the footer. */
  lemma PageComplete(matches: seq<User>, scanned: seq<User>, hits: seq<User>, heading: string, noResults: string,
                     bufSize: int)
    requires Found(matches, scanned, hits, |heading|, bufSize)
    requires |heading| + |Body(scanned, noResults)| < bufSize - 512
    ensures multiset(hits) == multiset(scanned)
    ensures Page(hits, heading, noResults, bufSize) == heading + Body(hits, noResults)
  {
    assert scanned == [] ==> Cards(scanned) == "";
    AllCounted(matches, scanned, hits, |heading|, bufSize);
    SameSize(hits, scanned);
  }
}
