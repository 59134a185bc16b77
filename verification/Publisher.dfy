/**
  Sequential publishing with retries (pkg/orchestrator/publisher.go) and partial
  progress across runs (pkg/orchestrator/progress.go, runReshare in reconciler.go).
  What the network answers is a parameter: one reply per family and attempt.
 */
module Publisher {
  import opened Types

  const FAMILIES: seq<KeyType> := [Ed25519, Secp256k1]
  const MAX_TRIES: nat := 2

  /** Outcome of one publish-and-wait; a failure may come with the run's context ended. */
  datatype Reply = Success(pub: ResultKey) | Failure(contextEnded: bool)

  /** The reply to attempt n (from 1) for a family. */
  type Replies = (KeyType, nat) -> Reply

  // ----- one family -----

  /** The first success within the allowed tries, unless the context ends first. */
  function Outcome(replies: Replies, kt: KeyType, attempt: nat): Reply
    decreases MAX_TRIES - attempt
  {
    var reply := replies(kt, attempt);
    if reply.Success? || reply.contextEnded || attempt >= MAX_TRIES then reply
    else Outcome(replies, kt, attempt + 1)
  }

  predicate Succeeds(replies: Replies, kt: KeyType) {
    Outcome(replies, kt, 1).Success?
  }

  method ReshareOneWithRetry(replies: Replies, kt: KeyType) returns (r: Reply, published: nat)
    ensures r == Outcome(replies, kt, 1)
    ensures 1 <= published <= MAX_TRIES
    ensures forall n :: 1 <= n < published ==> replies(kt, n) == Failure(false)
    ensures r == replies(kt, published)
    ensures published == if replies(kt, 1) == Failure(false) then 2 else 1
  {
    var attempt := 1;
    r, published := replies(kt, 1), 1;
    while attempt <= MAX_TRIES
      invariant 1 <= attempt <= MAX_TRIES
      invariant published == if attempt == 1 then 1 else attempt - 1
      invariant forall n :: 1 <= n < attempt ==> replies(kt, n) == Failure(false)
      invariant Outcome(replies, kt, 1) == Outcome(replies, kt, attempt)
      decreases MAX_TRIES - attempt
    {
      r, published := replies(kt, attempt), attempt;
      if r.Success? || r.contextEnded || attempt == MAX_TRIES {
        return;
      }
      attempt := attempt + 1;
    }
  }

  // ----- one run -----

  function AttemptedKeyTypes(only: seq<KeyType>): seq<KeyType> {
    if only == [] then FAMILIES else only
  }

  /** How many leading families succeed before the first failure. */
  function Completed(replies: Replies, kts: seq<KeyType>): (k: nat)
    ensures k <= |kts|
    ensures forall j :: 0 <= j < k ==> Succeeds(replies, kts[j])
    ensures k < |kts| ==> !Succeeds(replies, kts[k])
  {
    if kts == [] || !Succeeds(replies, kts[0]) then 0 else 1 + Completed(replies, kts[1..])
  }

  lemma {:induction false} CompletedUnique(replies: Replies, kts: seq<KeyType>, k: nat)
    requires k <= |kts| && (forall j :: 0 <= j < k ==> Succeeds(replies, kts[j]))
    requires k < |kts| ==> !Succeeds(replies, kts[k])
    ensures k == Completed(replies, kts)
  {
    if k > 0 {
      CompletedUnique(replies, kts[1..], k - 1);
    }
  }

  datatype ReshareResult = ReshareResult(done: set<KeyType>, pubKeys: map<KeyType, PubKey>)

  /** The result lists exactly the given families, each with the key the network returned. */
  ghost predicate Reports(replies: Replies, kts: seq<KeyType>, res: ReshareResult) {
    && (forall kt :: kt in res.done <==> kt in kts)
    && (forall kt :: kt in res.pubKeys <==> kt in kts)
    && forall kt :: kt in kts ==> res.pubKeys[kt] != [] && Outcome(replies, kt, 1) == Success(res.pubKeys[kt])
  }

  lemma ReportsMore(replies: Replies, kts: seq<KeyType>, kt: KeyType, res: ReshareResult, pub: ResultKey)
    requires Reports(replies, kts, res) && Outcome(replies, kt, 1) == Success(pub)
    ensures Reports(replies, kts + [kt], ReshareResult(res.done + {kt}, res.pubKeys[kt := pub]))
  {
  }

  /** The run published the families up to the first failure and reports those before it. */
  ghost predicate PublishedFor(kts: seq<KeyType>, replies: Replies, res: ReshareResult, published: seq<KeyType>, failed: bool) {
    var k := Completed(replies, kts);
    && Reports(replies, kts[..k], res)
    && (failed <==> k < |kts|)
    && published == if failed then kts[..k + 1] else kts
  }

  lemma StopsAt(replies: Replies, kts: seq<KeyType>, k: nat, res: ReshareResult)
    requires k <= |kts| && (forall j :: 0 <= j < k ==> Succeeds(replies, kts[j])) && Reports(replies, kts[..k], res)
    requires k < |kts| ==> !Succeeds(replies, kts[k])
    ensures PublishedFor(kts, replies, res, if k < |kts| then kts[..k + 1] else kts, k < |kts|)
  {
    CompletedUnique(replies, kts, k);
  }

  /** The network delivers a key for the family: at once, or after one failure with the context alive. */
  ghost predicate Delivers(replies: Replies, kt: KeyType, pub: PubKey) {
    || (replies(kt, 1).Success? && replies(kt, 1).pub == pub)
    || (replies(kt, 1) == Failure(false) && replies(kt, 2).Success? && replies(kt, 2).pub == pub)
  }

  ghost predicate Undelivered(replies: Replies, kt: KeyType) {
    forall pub :: !Delivers(replies, kt, pub)
  }

  lemma OutcomeDelivers(replies: Replies, kt: KeyType)
    ensures Succeeds(replies, kt) ==> Delivers(replies, kt, Outcome(replies, kt, 1).pub)
    ensures !Succeeds(replies, kt) ==> Undelivered(replies, kt)
  {
    assert Outcome(replies, kt, 1) == if replies(kt, 1) == Failure(false) then replies(kt, 2) else replies(kt, 1);
  }

  /**
    What a run's result means: the families are published in order, up to and including the
    first that the network does not deliver; all others published are done, each with the
    key delivered, and nothing else is.
   */
  lemma RunMeaning(kts: seq<KeyType>, replies: Replies, res: ReshareResult, published: seq<KeyType>, failed: bool)
    requires PublishedFor(kts, replies, res, published, failed)
    ensures published <= kts && (failed ==> published != []) && (!failed ==> published == kts)
    ensures failed ==> Undelivered(replies, published[|published| - 1])
    ensures var delivered := if failed then published[..|published| - 1] else published;
            forall kt :: (kt in res.done <==> kt in delivered) && (kt in res.pubKeys <==> kt in delivered)
    ensures forall kt :: kt in res.pubKeys ==> Delivers(replies, kt, res.pubKeys[kt])
  {
    var k := Completed(replies, kts);
    if failed {
      assert published[..|published| - 1] == kts[..k];
      OutcomeDelivers(replies, kts[k]);
    } else {
      assert kts[..k] == kts;
    }
    forall kt | kt in res.pubKeys ensures Delivers(replies, kt, res.pubKeys[kt]) {
      OutcomeDelivers(replies, kt);
    }
  }

  /** Families in order; the first failure stops the rest. */
  method ReshareWallet(replies: Replies, only: seq<KeyType>) returns (res: ReshareResult, failed: bool, published: seq<KeyType>)
    ensures PublishedFor(AttemptedKeyTypes(only), replies, res, published, failed)
  {
    var kts := only;
    if |kts| == 0 { kts := FAMILIES; }
    res, failed, published := ReshareResult({}, map[]), false, [];
    var i := 0;
    while i < |kts|
      invariant 0 <= i <= |kts|
      invariant forall j :: 0 <= j < i ==> Succeeds(replies, kts[j])
      invariant Reports(replies, kts[..i], res)
      invariant published == kts[..i]
    {
      var r, _ := ReshareOneWithRetry(replies, kts[i]);
      assert kts[..i] + [kts[i]] == kts[..i + 1];
      published := published + [kts[i]];
      if r.Failure? {
        StopsAt(replies, kts, i, res);
        return res, true, published;
      }
      ReportsMore(replies, kts[..i], kts[i], res, r.pub);
      res := ReshareResult(res.done + {kts[i]}, res.pubKeys[kts[i] := r.pub]);
      i := i + 1;
    }
    assert kts[..|kts|] == kts;
    StopsAt(replies, kts, |kts|, res);
  }

  // ----- progress across runs -----

  /** Families of the wallet in canonical order. */
  method WalletKeyTypes(w: Wallet) returns (out: seq<KeyType>)
    ensures out == Families(w)
    ensures forall kt :: kt in out <==> (kt == Ed25519 && Eddsa in w.keys) || (kt == Secp256k1 && Ecdsa in w.keys)
    ensures |out| <= 2 && (|out| == 2 ==> out == [Ed25519, Secp256k1])
  {
    out := [];
    for i := 0 to |FAMILIES|
      invariant out == if i == 0 then [] else if i == 1 then (if Eddsa in w.keys then [Ed25519] else []) else Families(w)
    {
      var kind := KeyKindFor(FAMILIES[i]);
      if kind.Some? && kind.value in w.keys {
        out := out + [FAMILIES[i]];
      }
    }
  }

  function Families(w: Wallet): seq<KeyType> {
    (if Eddsa in w.keys then [Ed25519] else []) + (if Ecdsa in w.keys then [Secp256k1] else [])
  }

  predicate Canonical(kts: seq<KeyType>) {
    kts == [] || kts == [Ed25519] || kts == [Secp256k1] || kts == [Ed25519, Secp256k1]
  }

  function Remaining(attempted: seq<KeyType>, done: set<KeyType>): seq<KeyType> {
    if attempted == [] then []
    else
      var last := attempted[|attempted| - 1];
      Remaining(attempted[..|attempted| - 1], done) + if last in done then [] else [last]
  }

  /** Attempted families that are not done, in their order. */
  method RemainingKeyTypes(attempted: seq<KeyType>, done: set<KeyType>) returns (out: seq<KeyType>)
    ensures out == Remaining(attempted, done)
  {
    out := [];
    for i := 0 to |attempted|
      invariant out == Remaining(attempted[..i], done)
    {
      assert attempted[..i + 1][..i] == attempted[..i];
      if attempted[i] !in done {
        out := out + [attempted[i]];
      }
    }
    assert attempted[..|attempted|] == attempted;
  }

  lemma RemainingOne(kt: KeyType, done: set<KeyType>)
    ensures Remaining([kt], done) == if kt in done then [] else [kt]
  {
    assert [kt][..0] == [];
  }

  lemma RemainingNext(a: seq<KeyType>, kt: KeyType, done: set<KeyType>)
    ensures Remaining(a + [kt], done) == Remaining(a, done) + if kt in done then [] else [kt]
  {
    assert (a + [kt])[..|a|] == a;
  }

  /** What remains is decided family by family, in order. */
  lemma {:induction false} RemainingConcat(a: seq<KeyType>, b: seq<KeyType>, done: set<KeyType>)
    ensures Remaining(a + b, done) == Remaining(a, done) + Remaining(b, done)
  {
    if b == [] {
      assert a + b == a;
    } else {
      var c, kt := b[..|b| - 1], b[|b| - 1];
      RemainingConcat(a, c, done);
      RemainingNext(a + c, kt, done);
      RemainingNext(c, kt, done);
      assert c + [kt] == b && a + c + [kt] == a + b;
    }
  }

  /** When a prefix is done, what remains is the suffix. */
  lemma {:induction false} RemainingIsSuffix(attempted: seq<KeyType>, done: set<KeyType>, k: nat)
    requires k <= |attempted|
    requires forall j :: 0 <= j < |attempted| ==> (attempted[j] in done <==> j < k)
    ensures Remaining(attempted, done) == attempted[k..]
  {
    if attempted != [] {
      var n := |attempted| - 1;
      if k <= n {
        RemainingIsSuffix(attempted[..n], done, k);
        assert attempted[k..] == attempted[..n][k..] + [attempted[n]];
      } else {
        RemainingIsSuffix(attempted[..n], done, n);
      }
    }
  }

  /**
    The round a wallet is in: the families it started with, those done so far in this
    round, and those still pending.  No pending families: the round is over.
   */
  datatype Round = Round(start: seq<KeyType>, done: seq<KeyType>, pending: seq<KeyType>)

  const NO_ROUND := Round([], [], [])

  /** One run: what the wallet holds at that time, whether the pending record can be read, and what the network answers. */
  datatype RunInput = RunInput(wallet: Wallet, readable: bool, replies: Replies)

  /** The families a run attempts. */
  function Attempts(pending: seq<KeyType>, w: Wallet): seq<KeyType> {
    AttemptedKeyTypes(if pending == [] then Families(w) else pending)
  }

  /** The round a run continues: a failed read of the record abandons the old one. */
  function Resumed(r: Round, run: RunInput): Round {
    if run.readable && r.pending != [] then r else NO_ROUND
  }

  function RunAttempts(r: Round, run: RunInput): seq<KeyType> {
    Attempts(Resumed(r, run).pending, run.wallet)
  }

  /** The round after a run that attempted some families and completed the first k. */
  function Advanced(r: Round, attempted: seq<KeyType>, k: nat): Round
    requires k <= |attempted|
  {
    Round(if r.pending == [] then attempted else r.start, r.done + attempted[..k], attempted[k..])
  }

  function Advance(r: Round, run: RunInput): Round {
    Advanced(Resumed(r, run), RunAttempts(r, run), Completed(run.replies, RunAttempts(r, run)))
  }

  function RoundAfter(runs: seq<RunInput>): Round {
    if runs == [] then NO_ROUND
    else Advance(RoundAfter(runs[..|runs| - 1]), runs[|runs| - 1])
  }

  /** What is done in the round followed by what is pending is the list the round started with. */
  ghost predicate RoundInv(r: Round) {
    r.done + r.pending == r.start && Canonical(r.start) && Canonical(r.pending)
  }

  lemma AttemptsCanonical(r: Round, run: RunInput)
    requires RoundInv(r)
    ensures RoundInv(Resumed(r, run)) && Canonical(RunAttempts(r, run)) && RunAttempts(r, run) != []
    ensures var before := Resumed(r, run);
            if before.pending != [] then RunAttempts(r, run) == before.pending else before == NO_ROUND
  {
  }

  lemma Regroup(done: seq<KeyType>, attempted: seq<KeyType>, k: nat)
    requires k <= |attempted|
    ensures (done + attempted[..k]) + attempted[k..] == done + attempted
    ensures [] + attempted == attempted
  {
    assert attempted[..k] + attempted[k..] == attempted;
  }

  lemma AdvancedKeepsRound(r: Round, attempted: seq<KeyType>, k: nat)
    requires RoundInv(r) && Canonical(attempted) && k <= |attempted|
    requires if r.pending != [] then attempted == r.pending else r == NO_ROUND
    ensures RoundInv(Advanced(r, attempted, k))
    ensures Advanced(r, attempted, k).start == r.done + attempted
  {
    SuffixCanonical(attempted, k);
    Regroup(r.done, attempted, k);
  }

  lemma SuffixCanonical(kts: seq<KeyType>, k: nat)
    requires Canonical(kts) && k <= |kts|
    ensures Canonical(kts[k..])
  {
    assert k == 0 ==> kts[k..] == kts;
    assert k == 1 && |kts| == 2 ==> kts[k..] == [kts[1]];
    assert k == |kts| ==> kts[k..] == [];
  }

  lemma AdvanceKeepsRound(r: Round, run: RunInput)
    requires RoundInv(r)
    ensures RoundInv(Advance(r, run))
    ensures Advance(r, run).start == Resumed(r, run).done + RunAttempts(r, run)
  {
    AttemptsCanonical(r, run);
    AdvancedKeepsRound(Resumed(r, run), RunAttempts(r, run), Completed(run.replies, RunAttempts(r, run)));
  }

  /** Conservation over any sequence of runs, with failing reads of the record among them. */
  lemma {:induction false} ProgressConserved(runs: seq<RunInput>)
    ensures RoundInv(RoundAfter(runs))
  {
    if runs != [] {
      ProgressConserved(runs[..|runs| - 1]);
      AdvanceKeepsRound(RoundAfter(runs[..|runs| - 1]), runs[|runs| - 1]);
    }
  }

  /**
    The next run after any sequence: it attempts what is pending, or the whole list if
    nothing is pending or the record cannot be read; its completed families are a prefix of
    those, a failed run leaves the non-empty rest pending and a successful one ends the round.
   */
  lemma RunOutcome(runs: seq<RunInput>, run: RunInput)
    ensures var r := RoundAfter(runs);
            var attempted, after := RunAttempts(r, run), Advance(r, run);
            && attempted != []
            && (if run.readable && r.pending != [] then attempted == r.pending && after.start == r.start
                else after.start == attempted == Attempts([], run.wallet))
            && after.done + after.pending == Resumed(r, run).done + attempted
            && (after.pending == [] <==> forall j :: 0 <= j < |attempted| ==> Succeeds(run.replies, attempted[j]))
  {
    var r := RoundAfter(runs);
    ProgressConserved(runs);
    AttemptsCanonical(r, run);
    AdvanceKeepsRound(r, run);
    var attempted := RunAttempts(r, run);
    var k := Completed(run.replies, attempted);
    assert Advance(r, run).pending == attempted[k..];
    assert attempted[k..] == [] <==> k == |attempted|;
  }

  /** The i-th family of the round is kt, and all before it are done; so ECDSA is after EdDSA. */
  ghost predicate InTurn(r: Round, i: nat, kt: KeyType) {
    && i < |r.start| && r.start[i] == kt
    && r.start[..i] <= r.done
    && (kt == Secp256k1 && Ed25519 in r.start ==> Ed25519 in r.done)
  }

  lemma CanonicalInTurn(after: Round, before: seq<KeyType>, attempted: seq<KeyType>, k: nat, m: nat)
    requires RoundInv(after) && after.start == before + attempted
    requires m <= k <= |attempted| && m < |attempted| && after.done == before + attempted[..k]
    ensures InTurn(after, |before| + m, attempted[m])
  {
    var i := |before| + m;
    assert after.start[..i] == after.done[..i];
    assert after.start[i] == attempted[m];
    if attempted[m] == Secp256k1 && Ed25519 in after.start {
      EddsaFirst(after.start, i);
      assert after.done[..i][0] == Ed25519;
    }
  }

  lemma EddsaFirst(kts: seq<KeyType>, i: nat)
    requires Canonical(kts) && i < |kts| && kts[i] == Secp256k1 && Ed25519 in kts
    ensures i == 1 && kts[0] == Ed25519
  {
  }

  /**
    A family is published only when every family before it in the round's list is done:
    ECDSA never before EdDSA has succeeded in the round.
   */
  lemma PublishedInOrder(runs: seq<RunInput>, run: RunInput, m: nat)
    requires m < |RunAttempts(RoundAfter(runs), run)|
    requires m <= Completed(run.replies, RunAttempts(RoundAfter(runs), run))
    ensures InTurn(Advance(RoundAfter(runs), run), |Resumed(RoundAfter(runs), run).done| + m,
                   RunAttempts(RoundAfter(runs), run)[m])
  {
    var r := RoundAfter(runs);
    ProgressConserved(runs);
    AdvanceKeepsRound(r, run);
    AdvancedInTurn(Resumed(r, run), RunAttempts(r, run), Completed(run.replies, RunAttempts(r, run)), m);
  }

  lemma AdvancedInTurn(before: Round, attempted: seq<KeyType>, k: nat, m: nat)
    requires m <= k <= |attempted| && m < |attempted|
    requires RoundInv(Advanced(before, attempted, k)) && Advanced(before, attempted, k).start == before.done + attempted
    ensures InTurn(Advanced(before, attempted, k), |before.done| + m, attempted[m])
  {
    CanonicalInTurn(Advanced(before, attempted, k), before.done, attempted, k, m);
  }

  /** What a run leaves to do of the families it attempted: those not among the completed first k. */
  function Left(attempted: seq<KeyType>, k: nat): seq<KeyType>
    requires k <= |attempted|
  {
    Remaining(attempted, set kt | kt in attempted[..k])
  }

  /** On lists without repeats, as the orchestrator writes them, that is the suffix. */
  lemma LeftIsSuffix(attempted: seq<KeyType>, k: nat)
    requires k <= |attempted|
    requires forall i, j :: 0 <= i < j < |attempted| ==> attempted[i] != attempted[j]
    ensures Left(attempted, k) == attempted[k..]
  {
    var done := set kt | kt in attempted[..k];
    forall j | 0 <= j < |attempted| ensures attempted[j] in done <==> j < k {
      assert j < k ==> attempted[..k][j] == attempted[j];
    }
    RemainingIsSuffix(attempted, done, k);
  }

  lemma {:induction false} RemainingEmptyIff(attempted: seq<KeyType>, done: set<KeyType>)
    ensures Remaining(attempted, done) == [] <==> forall kt :: kt in attempted ==> kt in done
  {
    if attempted != [] {
      var n := |attempted| - 1;
      RemainingEmptyIff(attempted[..n], done);
      assert attempted == attempted[..n] + [attempted[n]];
    }
  }

  /** A failed run leaves something to do: at least the family that failed. */
  lemma LeftEmptyIff(replies: Replies, attempted: seq<KeyType>)
    ensures Left(attempted, Completed(replies, attempted)) == [] <==> Completed(replies, attempted) == |attempted|
  {
    var k := Completed(replies, attempted);
    var done := set kt | kt in attempted[..k];
    RemainingEmptyIff(attempted, done);
    if k < |attempted| {
      assert attempted[k] in attempted && attempted[k] !in attempted[..k];
    } else {
      assert attempted[..k] == attempted;
    }
  }

  /** The publishing part of a run: the pending families as they are stored, or the wallet's own, in order. */
  method PublishPending(w: Wallet, pending: seq<KeyType>, replies: Replies)
    returns (res: ReshareResult, published: seq<KeyType>, failed: bool, remaining: seq<KeyType>)
    ensures PublishedFor(Attempts(pending, w), replies, res, published, failed)
    ensures remaining == Left(Attempts(pending, w), Completed(replies, Attempts(pending, w)))
    ensures failed <==> remaining != []
    ensures PublishesOwn(w, pending, published, failed)
  {
    var only := pending;
    if |only| == 0 {
      only := WalletKeyTypes(w);
    }
    var attempted := AttemptedKeyTypes(only);
    res, failed, published := ReshareWallet(replies, only);
    assert res.done == set kt | kt in attempted[..Completed(replies, attempted)];
    LeftEmptyIff(replies, attempted);
    RunPublishesOwn(w, pending, replies, res, published, failed);
    remaining := RemainingKeyTypes(attempted, res.done);
  }

  lemma CanonicalDistinct(kts: seq<KeyType>)
    requires Canonical(kts)
    ensures forall i, j :: 0 <= i < j < |kts| ==> kts[i] != kts[j]
  {
  }

  /** What runs leave in the record is one step of the round. */
  lemma LeftIsPending(r: Round, run: RunInput)
    requires RoundInv(r)
    ensures Left(RunAttempts(r, run), Completed(run.replies, RunAttempts(r, run))) == Advance(r, run).pending
  {
    var attempted := RunAttempts(r, run);
    assert forall i, j :: 0 <= i < j < |attempted| ==> attempted[i] != attempted[j] by {
      AttemptsCanonical(r, run);
      CanonicalDistinct(attempted);
    }
    LeftIsSuffix(attempted, Completed(run.replies, attempted));
  }

  /** A fresh round has exactly the families the wallet holds, or all of them if it holds none. */
  lemma FreshFamilies(w: Wallet)
    ensures w.keys != map[] ==>
              forall kt :: kt in Attempts([], w) <==> (kt == Ed25519 && Eddsa in w.keys) || (kt == Secp256k1 && Ecdsa in w.keys)
    ensures w.keys == map[] ==> Attempts([], w) == [Ed25519, Secp256k1]
  {
    if w.keys != map[] {
      var kind :| kind in w.keys;
      assert kind == Eddsa || kind == Ecdsa;
    }
  }

  /**
    A run publishes the stored list in order, or, if that is empty, families the wallet
    holds, and all of them unless it fails; for a wallet without keys it tries both.
   */
  ghost predicate PublishesOwn(w: Wallet, read: seq<KeyType>, published: seq<KeyType>, failed: bool) {
    if read != [] then published <= read && (!failed ==> published == read)
    else if w.keys == map[] then published <= [Ed25519, Secp256k1] && (!failed ==> |published| == 2)
    else
      && (forall kt :: kt in published ==> (kt == Ed25519 && Eddsa in w.keys) || (kt == Secp256k1 && Ecdsa in w.keys))
      && (!failed && Eddsa in w.keys ==> Ed25519 in published)
      && (!failed && Ecdsa in w.keys ==> Secp256k1 in published)
  }

  lemma RunPublishesOwn(w: Wallet, read: seq<KeyType>, replies: Replies, res: ReshareResult,
                        published: seq<KeyType>, failed: bool)
    requires PublishedFor(Attempts(read, w), replies, res, published, failed)
    ensures PublishesOwn(w, read, published, failed)
  {
    RunMeaning(Attempts(read, w), replies, res, published, failed);
    if read == [] {
      FreshFamilies(w);
      assert forall kt :: kt in published ==> kt in Attempts(read, w);
    }
  }

  class ProgressStore {
    var pending: map<string, seq<KeyType>>

    constructor ()
      ensures pending == map[]
    {
      pending := map[];
    }

    function Pending(w: string): seq<KeyType>
      reads this
    {
      if w in pending then pending[w] else []
    }

    method SetPending(w: string, kts: seq<KeyType>, writable: bool) returns (ok: bool)
      modifies this
      ensures ok <==> writable
      ensures Pending(w) == if ok then kts else old(Pending(w))
      ensures forall v :: v != w ==> Pending(v) == old(Pending(v))
    {
      if |kts| == 0 {
        ok := Clear(w, writable);
        return;
      }
      if !writable { return false; }
      pending := pending[w := kts];
      return true;
    }

    method Clear(w: string, writable: bool) returns (ok: bool)
      modifies this
      ensures ok <==> writable
      ensures Pending(w) == if ok then [] else old(Pending(w))
      ensures forall v :: v != w ==> Pending(v) == old(Pending(v))
    {
      if !writable { return false; }
      pending := pending - {w};
      return true;
    }

    /** A run on any stored record; on a record left by runs its effect is one step of the round. */
    method RunReshare(run: RunInput, writable: bool) returns (res: ReshareResult, published: seq<KeyType>, failed: bool)
      modifies this
      ensures var read := if run.readable then old(Pending(run.wallet.id)) else [];
              var attempted := Attempts(read, run.wallet);
              && PublishedFor(attempted, run.replies, res, published, failed)
              && Pending(run.wallet.id) ==
                 if writable then Left(attempted, Completed(run.replies, attempted)) else old(Pending(run.wallet.id))
      ensures forall v :: v != run.wallet.id ==> Pending(v) == old(Pending(v))
      ensures writable ==> (failed <==> Pending(run.wallet.id) != [])
      ensures PublishesOwn(run.wallet, if run.readable then old(Pending(run.wallet.id)) else [], published, failed)
      ensures forall round {:trigger RoundInv(round)} ::
                writable && RoundInv(round) && round.pending == old(Pending(run.wallet.id)) ==>
                  Pending(run.wallet.id) == Advance(round, run).pending
    {
      var w := run.wallet;
      var only: seq<KeyType> := [];
      if run.readable {
        only := Pending(w.id);
      }
      var remaining;
      res, published, failed, remaining := PublishPending(w, only, run.replies);
      forall round | RoundInv(round) && round.pending == Pending(w.id)
        ensures remaining == Advance(round, run).pending
      {
        LeftIsPending(round, run);
      }
      if failed {
        var _ := SetPending(w.id, remaining, writable);
      } else {
        var _ := Clear(w.id, writable);
      }
    }
  }
}
