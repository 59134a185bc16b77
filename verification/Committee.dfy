/**
  Deterministic committee selection (pkg/committee/committee.go).

  `SelectCommittee` keeps the two phases of the program: retain the surviving old
  members, trim or fill by hash order.  `Select` is the one-line specification it
  refines: order the pool by (not in the old committee, hash, id) and take the front.
  SHA-256 is a parameter `sha`, about which nothing is known.
 */
module Committee {
  import opened Ordering

  datatype Tier = Tier(maxActive: int, committeeSize: int, spare: int)

  datatype Policy = Policy(version: string, cap: int, threshold: int, tiers: seq<Tier>)

  datatype Plan = Plan(nodeIDs: seq<string>, threshold: int, spare: int, committeeSize: int,
                       policyVersion: string, policyHash: string)

  datatype Error = InvalidPolicy | MissingWallet | EmptyPool | NoQuorum | InsufficientCandidates

  datatype Result<+T> = Ok(value: T) | Err(error: Error)

  function DefaultPolicy(): Policy {
    Policy("2", 7, 2,
           [Tier(4, 3, 0), Tier(10, 4, 1), Tier(30, 5, 2), Tier(100, 6, 3), Tier(999999, 7, 4)])
  }

  predicate ValidPolicy(p: Policy) {
    && p.threshold >= 1
    && p.cap >= p.threshold + 1
    && p.tiers != []
    && forall t :: t in p.tiers ==> t.maxActive >= 1 && t.committeeSize >= p.threshold + 1 && t.spare >= 0
  }

  // ----- tiers -----

  predicate CeilingLe(t: Tier, u: Tier) {
    t.maxActive <= u.maxActive
  }

  function FirstTier(tiers: seq<Tier>, n: int): Tier
    requires tiers != []
  {
    if n <= tiers[0].maxActive || |tiers| == 1 then tiers[0] else FirstTier(tiers[1..], n)
  }

  function TierFor(p: Policy, activeCount: int): Tier
    requires p.tiers != []
  {
    FirstTier(SortBy(p.tiers, CeilingLe), activeCount)
  }

  function Min3(a: int, b: int, c: int): int {
    var m := if b < a then b else a;
    if c < m then c else m
  }

  function TargetSize(p: Policy, activeCount: int): int
    requires p.tiers != []
  {
    Min3(activeCount, p.cap, TierFor(p, activeCount).committeeSize)
  }

  /** What a tier choice means, without mentioning the order of the list. */
  ghost predicate Picks(tiers: seq<Tier>, n: int, t: Tier) {
    && t in tiers
    && if exists u :: u in tiers && n <= u.maxActive
       then n <= t.maxActive && forall u :: u in tiers && n <= u.maxActive ==> t.maxActive <= u.maxActive
       else forall u :: u in tiers ==> u.maxActive <= t.maxActive
  }

  ghost predicate DistinctCeilings(tiers: seq<Tier>) {
    forall t, u :: t in tiers && u in tiers && t.maxActive == u.maxActive ==> t == u
  }

  lemma {:induction false} FirstTierPicks(tiers: seq<Tier>, n: int)
    requires tiers != [] && Sorted(tiers, CeilingLe)
    ensures Picks(tiers, n, FirstTier(tiers, n))
  {
    if n <= tiers[0].maxActive {
      assert forall u :: u in tiers ==> CeilingLe(tiers[0], u);
    } else if |tiers| > 1 {
      FirstTierPicks(tiers[1..], n);
      assert tiers == [tiers[0]] + tiers[1..];
      var t := FirstTier(tiers[1..], n);
      assert t in tiers[1..];
      assert CeilingLe(tiers[0], t);
    }
  }

  /** The chosen tier is the one with the lowest ceiling covering the count, else the highest. */
  lemma TierForPicks(p: Policy, n: int)
    requires p.tiers != []
    ensures Picks(p.tiers, n, TierFor(p, n))
  {
    var sorted := SortBy(p.tiers, CeilingLe);
    SortByCorrect(p.tiers, CeilingLe);
    FirstTierPicks(sorted, n);
    assert forall t :: t in sorted <==> t in multiset(sorted);
    assert forall t :: t in p.tiers <==> t in multiset(p.tiers);
  }

  /** With distinct ceilings the configured order of the tiers does not matter. */
  lemma TierOrderIrrelevant(p: Policy, q: Policy, n: int)
    requires p.tiers != [] && multiset(p.tiers) == multiset(q.tiers)
    requires DistinctCeilings(p.tiers)
    ensures q.tiers != [] && TierFor(p, n) == TierFor(q, n)
  {
    assert |q.tiers| == |multiset(q.tiers)| == |p.tiers|;
    TierForPicks(p, n);
    TierForPicks(q, n);
    assert forall t :: t in q.tiers <==> t in multiset(q.tiers);
    assert forall t :: t in p.tiers <==> t in multiset(p.tiers);
  }

  // ----- the policy hash -----

  function Digits(n: nat): string {
    (if n < 10 then "" else Digits(n / 10)) + [('0' as int + n % 10) as char]
  }

  function Decimal(n: int): string {
    if n < 0 then "-" + Digits(-n) else Digits(n)
  }

  function TiersText(tiers: seq<Tier>): string {
    if tiers == [] then ""
    else
      var t := tiers[0];
      var rest := Decimal(t.spare) + [']'] + TiersText(tiers[1..]);
      ['['] + (Decimal(t.maxActive) + [','] + (Decimal(t.committeeSize) + [','] + rest))
  }

  function PolicyText(p: Policy): string {
    "v=" + p.version + [';'] + ("cap=" + Decimal(p.cap)) + [';'] + ("t=" + Decimal(p.threshold)) + [';']
    + TiersText(SortBy(p.tiers, CeilingLe))
  }

  /** The hash recorded for audits, over the sorted tiers. */
  function PolicyHash(sha: string -> string, p: Policy): string {
    sha(PolicyText(p))
  }

  predicate Numeral(s: string) {
    forall c :: c in s ==> '0' <= c <= '9' || c == '-'
  }

  lemma {:induction false} DigitsNumeral(n: nat)
    ensures Digits(n) != "" && forall c :: c in Digits(n) ==> '0' <= c <= '9'
  {
    if n >= 10 {
      DigitsNumeral(n / 10);
    }
  }

  lemma DecimalNumeral(n: int)
    ensures Numeral(Decimal(n)) && Decimal(n) != ""
    ensures Decimal(n)[0] == '-' <==> n < 0
  {
    DigitsNumeral(if n < 0 then -n else n);
    assert n >= 0 ==> Decimal(n)[0] in Digits(n);
  }

  lemma {:induction false} DigitsInjective(a: nat, b: nat)
    requires Digits(a) == Digits(b)
    ensures a == b
  {
    var x, y := Digits(a), Digits(b);
    assert x[|x| - 1] == ('0' as int + a % 10) as char && y[|y| - 1] == ('0' as int + b % 10) as char;
    assert x[..|x| - 1] == (if a < 10 then "" else Digits(a / 10));
    assert y[..|y| - 1] == (if b < 10 then "" else Digits(b / 10));
    if a >= 10 || b >= 10 {
      DigitsNumeral(a / 10);
      DigitsNumeral(b / 10);
      DigitsInjective(a / 10, b / 10);
    }
  }

  lemma DecimalInjective(a: int, b: int)
    requires Decimal(a) == Decimal(b)
    ensures a == b
  {
    DecimalNumeral(a);
    DecimalNumeral(b);
    if a < 0 {
      assert Decimal(a)[1..] == Digits(-a) && Decimal(b)[1..] == Digits(-b);
      DigitsInjective(-a, -b);
    } else {
      DigitsInjective(a, b);
    }
  }

  lemma SplitFirst(a: string, x: string, b: string, y: string, c: char)
    requires a + [c] + x == b + [c] + y && c !in a && c !in b
    ensures a == b && x == y
  {
    var s, t := a + [c] + x, b + [c] + y;
    assert s[|a|] == c && s[|b|] == c;
    assert forall i :: 0 <= i < |a| ==> s[i] == a[i] && a[i] != c;
    assert forall i :: 0 <= i < |b| ==> s[i] == b[i] && b[i] != c;
    assert a == s[..|a|] && b == s[..|b|];
    assert x == s[|a| + 1..] && y == t[|b| + 1..];
  }

  lemma LastAt(x: string, a: string, c: char)
    requires c !in a
    ensures (x + [c] + a)[|x|] == c
    ensures forall i :: |x| < i < |x| + 1 + |a| ==> (x + [c] + a)[i] != c
    ensures (x + [c] + a)[..|x|] == x && (x + [c] + a)[|x| + 1..] == a
  {
    forall i | |x| < i < |x| + 1 + |a| ensures (x + [c] + a)[i] != c {
      assert (x + [c] + a)[i] == a[i - |x| - 1];
    }
  }

  lemma SplitLast(x: string, a: string, y: string, b: string, c: char)
    requires x + [c] + a == y + [c] + b && c !in a && c !in b
    ensures x == y && a == b
  {
    LastAt(x, a, c);
    LastAt(y, b, c);
  }

  lemma NumberFirst(a: int, x: string, b: int, y: string, c: char)
    requires Decimal(a) + [c] + x == Decimal(b) + [c] + y && (c == ',' || c == ']')
    ensures a == b && x == y
  {
    DecimalNumeral(a);
    DecimalNumeral(b);
    SplitFirst(Decimal(a), x, Decimal(b), y, c);
    DecimalInjective(a, b);
  }

  predicate Plain(s: string) {
    ';' !in s
  }

  lemma PlainConcat(a: string, b: string)
    ensures Plain(a + b) <==> Plain(a) && Plain(b)
  {
  }

  lemma PlainField(n: int, c: char, rest: string)
    requires c != ';' && Plain(rest)
    ensures Plain(Decimal(n) + [c] + rest)
  {
    DecimalNumeral(n);
    PlainConcat(Decimal(n), [c]);
    PlainConcat(Decimal(n) + [c], rest);
  }

  lemma {:induction false} TiersTextPlain(tiers: seq<Tier>)
    ensures Plain(TiersText(tiers))
  {
    if tiers != [] {
      var t, tail := tiers[0], TiersText(tiers[1..]);
      TiersTextPlain(tiers[1..]);
      var c := Decimal(t.spare) + [']'] + tail;
      PlainField(t.spare, ']', tail);
      var b := Decimal(t.committeeSize) + [','] + c;
      PlainField(t.committeeSize, ',', c);
      PlainField(t.maxActive, ',', b);
      PlainConcat(['['], Decimal(t.maxActive) + [','] + b);
    }
  }

  lemma {:induction false} TiersTextInjective(s: seq<Tier>, t: seq<Tier>)
    requires TiersText(s) == TiersText(t)
    ensures s == t
  {
    if s != [] && t != [] {
      var a, b := s[0], t[0];
      var a3, b3 := TiersText(s[1..]), TiersText(t[1..]);
      var a2, b2 := Decimal(a.spare) + [']'] + a3, Decimal(b.spare) + [']'] + b3;
      var a1, b1 := Decimal(a.committeeSize) + [','] + a2, Decimal(b.committeeSize) + [','] + b2;
      assert TiersText(s)[1..] == Decimal(a.maxActive) + [','] + a1;
      assert TiersText(t)[1..] == Decimal(b.maxActive) + [','] + b1;
      NumberFirst(a.maxActive, a1, b.maxActive, b1, ',');
      NumberFirst(a.committeeSize, a2, b.committeeSize, b2, ',');
      NumberFirst(a.spare, a3, b.spare, b3, ']');
      TiersTextInjective(s[1..], t[1..]);
      assert s == [s[0]] + s[1..] && t == [t[0]] + t[1..];
    }
  }

  lemma FieldLast(x: string, name: string, a: int, y: string, b: int)
    requires x + [';'] + (name + Decimal(a)) == y + [';'] + (name + Decimal(b)) && ';' !in name
    ensures x == y && a == b
  {
    DecimalNumeral(a);
    DecimalNumeral(b);
    SplitLast(x, name + Decimal(a), y, name + Decimal(b), ';');
    assert Decimal(a) == (name + Decimal(a))[|name|..] && Decimal(b) == (name + Decimal(b))[|name|..];
    DecimalInjective(a, b);
  }

  /** The hashed text determines the version, the cap, the threshold and the sorted tiers, whatever characters the version has. */
  lemma PolicyTextInjective(p: Policy, q: Policy)
    requires PolicyText(p) == PolicyText(q)
    ensures p.version == q.version && p.cap == q.cap && p.threshold == q.threshold
    ensures SortBy(p.tiers, CeilingLe) == SortBy(q.tiers, CeilingLe)
  {
    var s, t := SortBy(p.tiers, CeilingLe), SortBy(q.tiers, CeilingLe);
    var p1, q1 := "v=" + p.version, "v=" + q.version;
    var p2, q2 := p1 + [';'] + ("cap=" + Decimal(p.cap)), q1 + [';'] + ("cap=" + Decimal(q.cap));
    var p3, q3 := p2 + [';'] + ("t=" + Decimal(p.threshold)), q2 + [';'] + ("t=" + Decimal(q.threshold));
    TiersTextPlain(s);
    TiersTextPlain(t);
    SplitLast(p3, TiersText(s), q3, TiersText(t), ';');
    TiersTextInjective(s, t);
    FieldLast(p2, "t=", p.threshold, q2, q.threshold);
    FieldLast(p1, "cap=", p.cap, q1, q.cap);
    assert p.version == p1[2..] && q.version == q1[2..];
  }

  /** With a collision-free hash, policies share their hash exactly when they differ at most in the order of their tiers. */
  lemma PolicyHashIff(sha: string -> string, p: Policy, q: Policy)
    requires (forall a, b :: sha(a) == sha(b) ==> a == b) && DistinctCeilings(p.tiers)
    ensures PolicyHash(sha, p) == PolicyHash(sha, q) <==>
            p.version == q.version && p.cap == q.cap && p.threshold == q.threshold && multiset(p.tiers) == multiset(q.tiers)
  {
    if PolicyHash(sha, p) == PolicyHash(sha, q) {
      PolicyTextInjective(p, q);
      SortByCorrect(p.tiers, CeilingLe);
      SortByCorrect(q.tiers, CeilingLe);
    }
    if multiset(p.tiers) == multiset(q.tiers) {
      SortedTiersAgree(p, q);
    }
  }

  lemma HeadsAgree(s: seq<Tier>, t: seq<Tier>)
    requires Sorted(s, CeilingLe) && Sorted(t, CeilingLe) && multiset(s) == multiset(t) && DistinctCeilings(s)
    requires s != [] && t != []
    ensures s[0] == t[0]
  {
    assert s[0] in multiset(t) && t[0] in multiset(s);
    assert CeilingLe(s[0], t[0]) && CeilingLe(t[0], s[0]);
  }

  lemma TailsAgree(s: seq<Tier>, t: seq<Tier>)
    requires s != [] && t != [] && s[0] == t[0] && multiset(s) == multiset(t)
    ensures multiset(s[1..]) == multiset(t[1..])
  {
    assert s == [s[0]] + s[1..] && t == [t[0]] + t[1..];
    assert multiset(s[1..]) == multiset(s) - multiset{s[0]};
    assert multiset(t[1..]) == multiset(t) - multiset{t[0]};
  }

  /** Sorted lists with the same tiers and distinct ceilings are the same list. */
  lemma {:induction false} SortedTiersUnique(s: seq<Tier>, t: seq<Tier>)
    requires Sorted(s, CeilingLe) && Sorted(t, CeilingLe) && multiset(s) == multiset(t) && DistinctCeilings(s)
    ensures s == t
  {
    assert |s| == |multiset(s)| == |multiset(t)| == |t|;
    if s != [] {
      HeadsAgree(s, t);
      TailsAgree(s, t);
      assert forall x :: x in s[1..] ==> x in s;
      SortedTiersUnique(s[1..], t[1..]);
      assert s == [s[0]] + s[1..] && t == [t[0]] + t[1..];
    }
  }

  lemma SortedTiersAgree(p: Policy, q: Policy)
    requires multiset(p.tiers) == multiset(q.tiers) && DistinctCeilings(p.tiers)
    ensures SortBy(p.tiers, CeilingLe) == SortBy(q.tiers, CeilingLe)
  {
    SortByCorrect(p.tiers, CeilingLe);
    SortByCorrect(q.tiers, CeilingLe);
    var s := SortBy(p.tiers, CeilingLe);
    assert forall t :: t in s <==> t in multiset(s);
    assert forall t :: t in p.tiers <==> t in multiset(p.tiers);
    SortedTiersUnique(s, SortBy(q.tiers, CeilingLe));
  }

  // ----- hash orders -----

  /** The sort key of a node: sha256(wallet | node | version). */
  function HashKey(sha: string -> string, wallet: string, version: string): string -> string {
    node => sha(wallet + "|" + node + "|" + version)
  }

  function HashOrder(key: string -> string): (string, string) -> bool {
    (a, b) => if key(a) == key(b) then StringLe(a, b) else StringLe(key(a), key(b))
  }

  /** Members of the previous committee first, then by hash and id. */
  function RetainOrder(key: string -> string, prev: set<string>): (string, string) -> bool {
    (a, b) => if (a in prev) != (b in prev) then a in prev else HashOrder(key)(a, b)
  }

  lemma HashOrderTotal(key: string -> string)
    ensures TotalOrder(HashOrder(key))
  {
    StringOrder();
  }

  lemma RetainOrderTotal(key: string -> string, prev: set<string>)
    ensures TotalOrder(RetainOrder(key, prev))
  {
    HashOrderTotal(key);
  }

  // ----- specification -----

  /** First occurrences of the non-empty ids. */
  function Uniq(ids: seq<string>): seq<string> {
    if ids == [] then [] else
      var r, x := Uniq(ids[..|ids| - 1]), ids[|ids| - 1];
      if x == "" || x in r then r else r + [x]
  }

  lemma {:induction false} UniqElems(ids: seq<string>)
    ensures NoRepeats(Uniq(ids))
    ensures Elems(Uniq(ids)) == Elems(ids) - {""}
  {
    if ids != [] {
      var rest, x := ids[..|ids| - 1], ids[|ids| - 1];
      UniqElems(rest);
      assert ids == rest + [x];
      assert Elems(ids) == Elems(rest) + {x};
      assert Elems(Uniq(rest) + [x]) == Elems(Uniq(rest)) + {x};
      assert x in Uniq(rest) <==> x in Elems(Uniq(rest));
    }
  }

  /** Order the pool with the previous members in front, take `size`, list them by name. */
  ghost function Chosen(key: string -> string, prev: seq<string>, pool: seq<string>, size: nat): seq<string>
    requires size <= |Uniq(pool)|
  {
    SortBy(SortBy(Uniq(pool), RetainOrder(key, Elems(prev)))[..size], StringLe)
  }

  /**
    The size for n candidates: the least of the candidates, the cap and the size of the tier
    with the lowest ceiling that covers them.
   */
  ghost predicate SizeFor(p: Policy, n: int, size: int, t: Tier) {
    && Picks(p.tiers, n, t)
    && size <= n && size <= p.cap && size <= t.committeeSize
    && (size == n || size == p.cap || size == t.committeeSize)
  }

  lemma TargetSizeBounds(p: Policy, n: int)
    requires ValidPolicy(p)
    ensures SizeFor(p, n, TargetSize(p, n), TierFor(p, n))
    ensures TargetSize(p, n) <= n && TargetSize(p, n) <= p.cap
    ensures TargetSize(p, n) >= p.threshold + 1 <==> n >= p.threshold + 1
    ensures n >= 0 ==> TargetSize(p, n) >= 0
  {
    TierForPicks(p, n);
  }

  ghost function Select(sha: string -> string, p: Policy, wallet: string, prev: seq<string>, pool: seq<string>): Result<Plan> {
    var n := |Uniq(pool)|;
    if !ValidPolicy(p) then Err(InvalidPolicy)
    else if wallet == "" then Err(MissingWallet)
    else if n == 0 then Err(EmptyPool)
    else if n < p.threshold + 1 then Err(NoQuorum)
    else
      TargetSizeBounds(p, n);
      var size := TargetSize(p, n);
      Ok(Plan(Chosen(HashKey(sha, wallet, p.version), prev, pool, size),
              p.threshold, TierFor(p, n).spare, size, p.version, PolicyHash(sha, p)))
  }

  // ----- what the specification means -----

  /** The chosen committee is strictly sorted and is the top of the pool in retain order. */
  lemma ChosenIsTop(key: string -> string, prev: seq<string>, pool: seq<string>, size: nat)
    requires size <= |Uniq(pool)|
    ensures StrictlySorted(Chosen(key, prev, pool, size), StringLe)
    ensures |Chosen(key, prev, pool, size)| == size
    ensures IsTop(Elems(Chosen(key, prev, pool, size)), Elems(pool) - {""}, size, RetainOrder(key, Elems(prev)))
  {
    var le := RetainOrder(key, Elems(prev));
    var ordered := SortBy(Uniq(pool), le);
    RetainOrderTotal(key, Elems(prev));
    StringOrder();
    UniqElems(pool);
    SortByStrict(Uniq(pool), le);
    PrefixIsTop(ordered, size, le);
    assert NoRepeats(ordered[..size]);
    SortByStrict(ordered[..size], StringLe);
  }

  /** ... and these two facts determine it. */
  lemma ChosenUnique(key: string -> string, prev: seq<string>, pool: seq<string>, size: nat, ids: seq<string>)
    requires size <= |Uniq(pool)|
    requires StrictlySorted(ids, StringLe)
    requires IsTop(Elems(ids), Elems(pool) - {""}, size, RetainOrder(key, Elems(prev)))
    ensures ids == Chosen(key, prev, pool, size)
  {
    var le := RetainOrder(key, Elems(prev));
    RetainOrderTotal(key, Elems(prev));
    StringOrder();
    ChosenIsTop(key, prev, pool, size);
    TopUnique(Elems(ids), Elems(Chosen(key, prev, pool, size)), Elems(pool) - {""}, size, le);
    StrictlySortedUnique(ids, Chosen(key, prev, pool, size), StringLe);
  }

  /** Old members outside the pool have no influence. */
  lemma TopIgnoresDeparted(key: string -> string, prev1: set<string>, prev2: set<string>,
                           c: set<string>, p: set<string>, size: nat)
    requires prev1 * p == prev2 * p
    requires IsTop(c, p, size, RetainOrder(key, prev1))
    ensures IsTop(c, p, size, RetainOrder(key, prev2))
  {
    forall x, y | x in c && y in p && y !in c ensures RetainOrder(key, prev2)(x, y) {
      assert RetainOrder(key, prev1)(x, y);
      assert forall z :: z in p ==> (z in prev1 <==> z in prev1 * p) && (z in prev2 <==> z in prev2 * p);
    }
  }

  /**
    Canonicity: the plan depends only on the set of pool members and on the old
    members among them, not on order, repeats, empty ids or departed members.
   */
  lemma SelectCanonical(sha: string -> string, p: Policy, wallet: string,
                        prev1: seq<string>, pool1: seq<string>, prev2: seq<string>, pool2: seq<string>)
    requires Elems(pool1) - {""} == Elems(pool2) - {""}
    requires Elems(prev1) * (Elems(pool1) - {""}) == Elems(prev2) * (Elems(pool2) - {""})
    ensures Select(sha, p, wallet, prev1, pool1) == Select(sha, p, wallet, prev2, pool2)
  {
    UniqElems(pool1);
    UniqElems(pool2);
    NoRepeatsCardinality(Uniq(pool1));
    NoRepeatsCardinality(Uniq(pool2));
    var n := |Uniq(pool1)|;
    if ValidPolicy(p) && n >= p.threshold + 1 {
      TargetSizeBounds(p, n);
      var key, size := HashKey(sha, wallet, p.version), TargetSize(p, n);
      var c := Chosen(key, prev1, pool1, size);
      ChosenIsTop(key, prev1, pool1, size);
      TopIgnoresDeparted(key, Elems(prev1), Elems(prev2), Elems(c), Elems(pool1) - {""}, size);
      ChosenUnique(key, prev2, pool2, size, c);
    }
  }

  /**
    Selection succeeds exactly with a consistent policy, a wallet id and t+1 distinct
    non-empty candidates; the plan then has the size of the covering tier, capped by the
    policy and the candidates, and the policy's threshold, version and spare.
   */
  lemma SelectSucceedsIff(sha: string -> string, p: Policy, wallet: string, prev: seq<string>, pool: seq<string>)
    ensures Select(sha, p, wallet, prev, pool).Ok? <==>
            && p.threshold >= 1 && p.cap >= p.threshold + 1 && p.tiers != []
            && (forall t :: t in p.tiers ==> t.maxActive >= 1 && t.committeeSize >= p.threshold + 1 && t.spare >= 0)
            && wallet != "" && |Elems(pool) - {""}| >= p.threshold + 1
    ensures Select(sha, p, wallet, prev, pool).Ok? ==>
              var plan, n := Select(sha, p, wallet, prev, pool).value, |Elems(pool) - {""}|;
              && ValidPolicy(p)
              && |plan.nodeIDs| == plan.committeeSize == TargetSize(p, n)
              && p.threshold + 1 <= |plan.nodeIDs| <= p.cap
              && Elems(plan.nodeIDs) <= Elems(pool) - {""}
              && StrictlySorted(plan.nodeIDs, StringLe)
              && plan.threshold == p.threshold && plan.policyVersion == p.version && plan.policyHash == PolicyHash(sha, p)
    ensures Select(sha, p, wallet, prev, pool).Ok? ==>
              var plan, n := Select(sha, p, wallet, prev, pool).value, |Elems(pool) - {""}|;
              exists t :: SizeFor(p, n, |plan.nodeIDs|, t) && plan.spare == t.spare
  {
    UniqElems(pool);
    NoRepeatsCardinality(Uniq(pool));
    var n := |Uniq(pool)|;
    if ValidPolicy(p) {
      TargetSizeBounds(p, n);
      if n >= p.threshold + 1 {
        ChosenIsTop(HashKey(sha, wallet, p.version), prev, pool, TargetSize(p, n));
        assert wallet != "" ==> SizeFor(p, n, TargetSize(p, n), TierFor(p, n));
      }
    }
  }

  /** Which check refuses a selection. */
  lemma SelectErrors(sha: string -> string, p: Policy, wallet: string, prev: seq<string>, pool: seq<string>)
    requires Select(sha, p, wallet, prev, pool).Err?
    ensures Select(sha, p, wallet, prev, pool).error ==
            if !(p.threshold >= 1 && p.cap >= p.threshold + 1 && p.tiers != [] &&
                 forall t :: t in p.tiers ==> t.maxActive >= 1 && t.committeeSize >= p.threshold + 1 && t.spare >= 0)
            then InvalidPolicy
            else if wallet == "" then MissingWallet
            else if Elems(pool) <= {""} then EmptyPool
            else NoQuorum
  {
    UniqElems(pool);
    NoRepeatsCardinality(Uniq(pool));
    assert Elems(pool) <= {""} <==> Elems(pool) - {""} == {};
    assert |Uniq(pool)| == 0 <==> Elems(Uniq(pool)) == {};
  }

  /** x is preferred to y: an old member before a newcomer, then the smaller hash, then the smaller id. */
  ghost predicate Preferred(sha: string -> string, wallet: string, version: string, prev: seq<string>, x: string, y: string) {
    var hx, hy := sha(wallet + "|" + x + "|" + version), sha(wallet + "|" + y + "|" + version);
    || (x in prev && y !in prev)
    || ((x in prev <==> y in prev) && (if hx == hy then Precedes(x, y) else Precedes(hx, hy)))
  }

  lemma HashIsPreferred(key: string -> string, x: string, y: string)
    ensures HashOrder(key)(x, y) <==> if key(x) == key(y) then Precedes(x, y) else Precedes(key(x), key(y))
  {
    StringLeIff(key(x), key(y));
    StringLeIff(x, y);
  }

  lemma RetainIsPreferred(sha: string -> string, wallet: string, version: string, prev: seq<string>, x: string, y: string)
    ensures RetainOrder(HashKey(sha, wallet, version), Elems(prev))(x, y) <==> Preferred(sha, wallet, version, prev, x, y)
  {
    var key, o := HashKey(sha, wallet, version), Elems(prev);
    assert (x in o <==> x in prev) && (y in o <==> y in prev);
    HashIsPreferred(key, x, y);
    assert RetainOrder(key, o)(x, y) <==> if (x in o) != (y in o) then x in o else HashOrder(key)(x, y);
  }

  lemma PlanOrdered(sha: string -> string, p: Policy, wallet: string, prev: seq<string>, pool: seq<string>, x: string, y: string)
    requires Select(sha, p, wallet, prev, pool).Ok?
    requires var ids := Select(sha, p, wallet, prev, pool).value.nodeIDs; x in ids && y in pool && y != "" && y !in ids
    ensures RetainOrder(HashKey(sha, wallet, p.version), Elems(prev))(x, y)
  {
    var key, n := HashKey(sha, wallet, p.version), |Uniq(pool)|;
    TargetSizeBounds(p, n);
    ChosenIsTop(key, prev, pool, TargetSize(p, n));
    assert x in Elems(Chosen(key, prev, pool, TargetSize(p, n)));
    assert y in Elems(pool) - {""};
  }

  /** Every member of the plan is preferred to every candidate left out. */
  lemma PlanPreferred(sha: string -> string, p: Policy, wallet: string, prev: seq<string>, pool: seq<string>,
                      x: string, y: string)
    requires Select(sha, p, wallet, prev, pool).Ok?
    requires var ids := Select(sha, p, wallet, prev, pool).value.nodeIDs; x in ids && y in pool && y != "" && y !in ids
    ensures Preferred(sha, wallet, p.version, prev, x, y)
  {
    PlanOrdered(sha, p, wallet, prev, pool, x, y);
    RetainIsPreferred(sha, wallet, p.version, prev, x, y);
  }

  /** A string between two known neighbours of equal total length is determined. */
  lemma MiddleCancels(left: string, a: string, b: string, right: string)
    requires left + a + right == left + b + right
    ensures a == b
  {
    var x, y := left + a + right, left + b + right;
    assert |a| == |b|;
    assert a == x[|left|..|left| + |a|] && b == y[|left|..|left| + |b|];
  }

  lemma WalletSeparates(sha: string -> string, wallet: string, node: string, version: string, other: string)
    requires forall a, b :: sha(a) == sha(b) ==> a == b
    requires HashKey(sha, wallet, version)(node) == HashKey(sha, other, version)(node)
    ensures other == wallet
  {
    var tail := "|" + node + "|" + version;
    assert wallet + "|" + node + "|" + version == [] + wallet + tail;
    assert other + "|" + node + "|" + version == [] + other + tail;
    MiddleCancels([], wallet, other, tail);
  }

  lemma NodeSeparates(sha: string -> string, wallet: string, node: string, version: string, other: string)
    requires forall a, b :: sha(a) == sha(b) ==> a == b
    requires HashKey(sha, wallet, version)(node) == HashKey(sha, wallet, version)(other)
    ensures other == node
  {
    var left, right := wallet + "|", "|" + version;
    assert wallet + "|" + node + "|" + version == left + node + right;
    assert wallet + "|" + other + "|" + version == left + other + right;
    MiddleCancels(left, node, other, right);
  }

  lemma VersionSeparates(sha: string -> string, wallet: string, node: string, version: string, other: string)
    requires forall a, b :: sha(a) == sha(b) ==> a == b
    requires HashKey(sha, wallet, version)(node) == HashKey(sha, wallet, other)(node)
    ensures other == version
  {
    var left := wallet + "|" + node + "|";
    assert left + version == left + version + [] && left + other == left + other + [];
    MiddleCancels(left, version, other, []);
  }

  /** With a collision-free hash, changing the wallet, the node or the version changes the key. */
  lemma HashKeySeparates(sha: string -> string, wallet: string, node: string, version: string, other: string)
    requires forall a, b :: sha(a) == sha(b) ==> a == b
    ensures HashKey(sha, wallet, version)(node) == HashKey(sha, other, version)(node) ==> other == wallet
    ensures HashKey(sha, wallet, version)(node) == HashKey(sha, wallet, version)(other) ==> other == node
    ensures HashKey(sha, wallet, version)(node) == HashKey(sha, wallet, other)(node) ==> other == version
  {
    if HashKey(sha, wallet, version)(node) == HashKey(sha, other, version)(node) {
      WalletSeparates(sha, wallet, node, version, other);
    }
    if HashKey(sha, wallet, version)(node) == HashKey(sha, wallet, version)(other) {
      NodeSeparates(sha, wallet, node, version, other);
    }
    if HashKey(sha, wallet, version)(node) == HashKey(sha, wallet, other)(node) {
      VersionSeparates(sha, wallet, node, version, other);
    }
  }

  /** With distinct ceilings, nodes that list the tiers in different orders still choose the same plan. */
  lemma SelectIgnoresTierOrder(sha: string -> string, p: Policy, q: Policy, wallet: string, prev: seq<string>, pool: seq<string>)
    requires q == p.(tiers := q.tiers) && multiset(p.tiers) == multiset(q.tiers) && DistinctCeilings(p.tiers)
    ensures Select(sha, p, wallet, prev, pool) == Select(sha, q, wallet, prev, pool)
  {
    assert |p.tiers| == |multiset(p.tiers)| == |multiset(q.tiers)| == |q.tiers|;
    assert forall t :: t in p.tiers <==> t in multiset(p.tiers);
    assert forall t :: t in q.tiers <==> t in multiset(q.tiers);
    assert ValidPolicy(p) <==> ValidPolicy(q);
    if ValidPolicy(p) {
      TierOrderIrrelevant(p, q, |Uniq(pool)|);
      SortedTiersAgree(p, q);
    }
  }

  lemma PicksUnique(tiers: seq<Tier>, n: int, t: Tier, u: Tier)
    requires DistinctCeilings(tiers) && Picks(tiers, n, t) && Picks(tiers, n, u)
    ensures t == u
  {
  }

  lemma DefaultPicks(n: int, k: nat)
    requires k == if n <= 4 then 0 else if n <= 10 then 1 else if n <= 30 then 2 else if n <= 100 then 3 else 4
    ensures DistinctCeilings(DefaultPolicy().tiers) && Picks(DefaultPolicy().tiers, n, DefaultPolicy().tiers[k])
  {
    var tiers := DefaultPolicy().tiers;
    assert tiers[k] in tiers;
    assert forall u :: u in tiers ==> u == tiers[0] || u == tiers[1] || u == tiers[2] || u == tiers[3] || u == tiers[4];
  }

  lemma DefaultTier(n: int)
    ensures TierFor(DefaultPolicy(), n) ==
            if n <= 4 then Tier(4, 3, 0) else if n <= 10 then Tier(10, 4, 1) else if n <= 30 then Tier(30, 5, 2)
            else if n <= 100 then Tier(100, 6, 3) else Tier(999999, 7, 4)
  {
    var k := if n <= 4 then 0 else if n <= 10 then 1 else if n <= 30 then 2 else if n <= 100 then 3 else 4;
    DefaultPicks(n, k);
    TierForPicks(DefaultPolicy(), n);
    PicksUnique(DefaultPolicy().tiers, n, TierFor(DefaultPolicy(), n), DefaultPolicy().tiers[k]);
  }

  /** Committee size and spare of the default policy. */
  lemma DefaultPolicyTable(n: int)
    requires n >= 3
    ensures TargetSize(DefaultPolicy(), n) ==
            if n <= 4 then 3 else if n <= 10 then 4 else if n <= 30 then 5 else if n <= 100 then 6 else 7
    ensures TierFor(DefaultPolicy(), n).spare == TargetSize(DefaultPolicy(), n) - 3
    ensures DefaultPolicy().threshold == 2 && DefaultPolicy().cap == 7 && DefaultPolicy().version == "2"
  {
    DefaultTier(n);
  }

  // ----- churn -----

  /** No pool subset of the same size keeps more old members than the chosen committee. */
  lemma MaximalOverlap(key: string -> string, prev: seq<string>, pool: seq<string>, size: nat, other: set<string>)
    requires size <= |Uniq(pool)|
    requires other <= Elems(pool) - {""} && |other| == size
    ensures |other * Elems(prev)| <= |Elems(Chosen(key, prev, pool, size)) * Elems(prev)|
  {
    var c, o, p := Elems(Chosen(key, prev, pool, size)), Elems(prev), Elems(pool) - {""};
    ChosenIsTop(key, prev, pool, size);
    if y :| y in p && y in o && y !in c {
      assert forall x :: x in c ==> RetainOrder(key, o)(x, y);
      assert c * o == c;
      SubsetSize(other * o, other);
    } else {
      assert other * o <= c * o;
      SubsetSize(other * o, c * o);
    }
  }

  /** Selecting again with the plan as the old committee returns the plan. */
  lemma SelectIdempotent(sha: string -> string, p: Policy, wallet: string, prev: seq<string>, pool: seq<string>)
    requires Select(sha, p, wallet, prev, pool).Ok?
    ensures var plan := Select(sha, p, wallet, prev, pool).value;
            Select(sha, p, wallet, plan.nodeIDs, pool) == Ok(plan)
  {
    var plan := Select(sha, p, wallet, prev, pool).value;
    var key, size := HashKey(sha, wallet, p.version), plan.committeeSize;
    SelectSucceedsIff(sha, p, wallet, prev, pool);
    TargetSizeBounds(p, |Uniq(pool)|);
    ChosenIsTop(key, prev, pool, size);
    assert IsTop(Elems(plan.nodeIDs), Elems(pool) - {""}, size, RetainOrder(key, Elems(plan.nodeIDs)));
    ChosenUnique(key, plan.nodeIDs, pool, size, plan.nodeIDs);
  }

  /**
    Stability: growing the pool without changing the target size brings in only new
    nodes, so adding or removing one node changes at most one member.
   */
  lemma PoolGrowth(key: string -> string, prev: seq<string>, small: seq<string>, large: seq<string>, size: nat)
    requires size <= |Uniq(small)| && size <= |Uniq(large)|
    requires Elems(small) <= Elems(large)
    ensures var c, d := Elems(Chosen(key, prev, small, size)), Elems(Chosen(key, prev, large, size));
            && d * Elems(small) <= c
            && d - c <= Elems(large) - Elems(small)
            && |d - c| == |c - d| <= |Elems(large) - Elems(small)|
  {
    var c, d := Elems(Chosen(key, prev, small, size)), Elems(Chosen(key, prev, large, size));
    RetainOrderTotal(key, Elems(prev));
    ChosenIsTop(key, prev, small, size);
    ChosenIsTop(key, prev, large, size);
    TopStable(c, d, Elems(small) - {""}, Elems(large) - {""}, size, RetainOrder(key, Elems(prev)));
    assert |c| == |c * d| + |c - d| by { assert c == c * d + (c - d); }
    assert |d| == |c * d| + |d - c| by { assert d == c * d + (d - c); }
    SubsetSize(d - c, Elems(large) - Elems(small));
  }

  // ----- the program -----

  method UniqueSorted(ids: seq<string>) returns (out: seq<string>)
    ensures StrictlySorted(out, StringLe)
    ensures Elems(out) == Elems(ids) - {""}
    ensures |out| == |Uniq(ids)|
  {
    var seen: set<string> := {};
    out := [];
    for i := 0 to |ids|
      invariant out == Uniq(ids[..i]) && seen == Elems(out)
    {
      assert ids[..i + 1][..i] == ids[..i];
      if ids[i] != "" && ids[i] !in seen {
        seen := seen + {ids[i]};
        out := out + [ids[i]];
      }
    }
    assert ids[..|ids|] == ids;
    UniqElems(ids);
    StringOrder();
    SortByStrict(out, StringLe);
    out := SortBy(out, StringLe);
  }

  /** Surviving old members, first occurrences only. */
  method Retain(prev: seq<string>, pool: set<string>) returns (retained: seq<string>)
    ensures NoRepeats(retained)
    ensures Elems(retained) == Elems(prev) * pool
  {
    retained := [];
    var seen: set<string> := {};
    for i := 0 to |prev|
      invariant NoRepeats(retained)
      invariant Elems(retained) == seen == Elems(prev[..i]) * pool
    {
      assert prev[..i + 1] == prev[..i] + [prev[i]];
      assert Elems(prev[..i + 1]) == Elems(prev[..i]) + {prev[i]};
      if prev[i] in pool && prev[i] !in seen {
        assert Elems(retained + [prev[i]]) == Elems(retained) + {prev[i]};
        retained := retained + [prev[i]];
        seen := seen + {prev[i]};
      }
    }
    assert prev[..|prev|] == prev;
  }

  /** Pool members that were not retained, in pool order. */
  method FillCandidates(pool: seq<string>, retained: set<string>) returns (out: seq<string>)
    requires NoRepeats(pool)
    ensures NoRepeats(out)
    ensures Elems(out) == Elems(pool) - retained
  {
    out := [];
    for i := 0 to |pool|
      invariant NoRepeats(out)
      invariant Elems(out) == Elems(pool[..i]) - retained
    {
      assert Elems(pool[..i + 1]) == Elems(pool[..i]) + {pool[i]};
      assert pool[i] !in Elems(pool[..i]);
      if pool[i] !in retained {
        assert Elems(out + [pool[i]]) == Elems(out) + {pool[i]};
        out := out + [pool[i]];
      }
    }
    assert pool[..|pool|] == pool;
  }

  /** Trimming the surviving old members by hash gives the top of the pool in retain order. */
  lemma TrimIsTop(key: string -> string, prev: set<string>, pool: set<string>, kept: seq<string>, size: nat)
    requires StrictlySorted(kept, HashOrder(key)) && Elems(kept) == prev * pool
    requires size <= |kept|
    ensures IsTop(Elems(kept[..size]), pool, size, RetainOrder(key, prev))
  {
    PrefixIsTop(kept, size, HashOrder(key));
    forall x, y | x in kept[..size] && y in pool && y !in kept[..size] ensures RetainOrder(key, prev)(x, y) {
      assert x in Elems(kept);
      assert y in prev ==> y in Elems(kept);
    }
    assert Elems(kept[..size]) <= Elems(kept);
  }

  lemma ConcatNoRepeats<T>(a: seq<T>, b: seq<T>)
    requires NoRepeats(a) && NoRepeats(b) && Elems(a) !! Elems(b)
    ensures NoRepeats(a + b) && Elems(a + b) == Elems(a) + Elems(b)
  {
    forall i, j | 0 <= i < j < |a + b| ensures (a + b)[i] != (a + b)[j] {
      assert i < |a| ==> a[i] in Elems(a);
      assert j >= |a| ==> b[j - |a|] in Elems(b);
    }
  }

  /** All surviving old members plus the first others by hash are the top of the pool in retain order. */
  lemma FillIsTop(key: string -> string, prev: set<string>, pool: set<string>, kept: seq<string>, fill: seq<string>, size: nat)
    requires NoRepeats(kept) && Elems(kept) == prev * pool
    requires StrictlySorted(fill, HashOrder(key)) && Elems(fill) == pool - prev
    requires |kept| <= size <= |kept| + |fill|
    ensures NoRepeats(kept + fill[..size - |kept|])
    ensures IsTop(Elems(kept + fill[..size - |kept|]), pool, size, RetainOrder(key, prev))
  {
    var front := fill[..size - |kept|];
    PrefixIsTop(fill, |front|, HashOrder(key));
    ConcatNoRepeats(kept, front);
    NoRepeatsCardinality(kept);
    UnionIsTop(key, prev, pool, Elems(kept), Elems(front), |front|);
    assert Elems(kept + front) == Elems(kept) + Elems(front);
  }

  /** All retained members and the best of the rest are the best of the pool. */
  lemma UnionIsTop(key: string -> string, prev: set<string>, pool: set<string>, kept: set<string>, front: set<string>, k: nat)
    requires kept == prev * pool && IsTop(front, pool - prev, k, HashOrder(key))
    ensures IsTop(kept + front, pool, |kept| + k, RetainOrder(key, prev))
  {
    assert kept !! front;
    forall x, y | x in kept + front && y in pool && y !in kept + front ensures RetainOrder(key, prev)(x, y) {
      assert y in pool - prev && y !in front;
    }
  }

  method SortByHash(key: string -> string, ids: seq<string>) returns (out: seq<string>)
    requires NoRepeats(ids)
    ensures StrictlySorted(out, HashOrder(key))
    ensures Elems(out) == Elems(ids) && |out| == |ids|
  {
    HashOrderTotal(key);
    SortByStrict(ids, HashOrder(key));
    out := SortBy(ids, HashOrder(key));
  }

  /** The trim step: more survivors than seats. */
  method Trim(key: string -> string, ghost prev: set<string>, ghost pool: set<string>, survivors: seq<string>, size: nat)
    returns (retained: seq<string>)
    requires NoRepeats(survivors) && Elems(survivors) == prev * pool
    ensures |survivors| <= size ==> retained == survivors
    ensures |survivors| > size ==>
              |retained| == size && NoRepeats(retained) && IsTop(Elems(retained), pool, size, RetainOrder(key, prev))
  {
    retained := survivors;
    if |survivors| > size {
      retained := SortByHash(key, survivors);
      TrimIsTop(key, prev, pool, retained, size);
      retained := retained[..size];
    }
  }

  method FillUp(retained: seq<string>, candidates: seq<string>, size: nat) returns (committee: seq<string>)
    requires |retained| <= size <= |retained| + |candidates|
    ensures committee == retained + candidates[..size - |retained|]
  {
    committee := retained;
    var i := 0;
    while i < |candidates| && |committee| < size
      invariant 0 <= i <= size - |retained| <= |candidates| && committee == retained + candidates[..i]
    {
      committee := committee + [candidates[i]];
      i := i + 1;
    }
  }

  lemma SplitCounts(pool: seq<string>, retained: seq<string>, candidates: seq<string>)
    requires NoRepeats(pool) && NoRepeats(retained) && NoRepeats(candidates)
    requires Elems(retained) <= Elems(pool) && Elems(candidates) == Elems(pool) - Elems(retained)
    ensures |pool| == |retained| + |candidates|
  {
    NoRepeatsCardinality(pool);
    NoRepeatsCardinality(retained);
    NoRepeatsCardinality(candidates);
    assert Elems(pool) == Elems(retained) + Elems(candidates);
  }

  /** The committee, in the order in which the two phases collect it. */
  method RetainThenFill(key: string -> string, prev: seq<string>, pool: seq<string>, size: nat) returns (committee: seq<string>)
    requires NoRepeats(pool) && size <= |pool|
    ensures NoRepeats(committee) && |committee| == size
    ensures IsTop(Elems(committee), Elems(pool), size, RetainOrder(key, Elems(prev)))
  {
    var survivors := Retain(prev, set x | x in pool);
    assert Elems(survivors) == Elems(prev) * Elems(pool);
    var retained := Trim(key, Elems(prev), Elems(pool), survivors, size);
    var candidates := FillCandidates(pool, set x | x in retained);
    candidates := SortByHash(key, candidates);
    SplitCounts(pool, retained, candidates);
    committee := FillUp(retained, candidates, size);
    if |survivors| > size {
      assert committee == retained;
    } else {
      assert Elems(candidates) == Elems(pool) - Elems(prev);
      FillIsTop(key, Elems(prev), Elems(pool), retained, candidates, size);
    }
  }

  method SelectCommittee(sha: string -> string, p: Policy, wallet: string, prev: seq<string>, activePool: seq<string>)
    returns (r: Result<Plan>)
    ensures r == Select(sha, p, wallet, prev, activePool)
    ensures r != Err(InsufficientCandidates)
  {
    if !ValidPolicy(p) { return Err(InvalidPolicy); }
    if wallet == "" { return Err(MissingWallet); }
    var pool := UniqueSorted(activePool);
    if |pool| == 0 { return Err(EmptyPool); }
    var tier := TierFor(p, |pool|);
    var size := Min3(|pool|, p.cap, tier.committeeSize);
    TargetSizeBounds(p, |pool|);
    if size < p.threshold + 1 { return Err(NoQuorum); }
    var key := HashKey(sha, wallet, p.version);
    var committee := RetainThenFill(key, prev, pool, size);
    if |committee| != size { return Err(InsufficientCandidates); }
    StringOrder();
    SortByStrict(committee, StringLe);
    ChosenUnique(key, prev, activePool, size, SortBy(committee, StringLe));
    return Ok(Plan(SortBy(committee, StringLe), p.threshold, tier.spare, size, p.version, PolicyHash(sha, p)));
  }
}
