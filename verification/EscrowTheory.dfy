/** What a reader of the journal may rely on at any crash point of any run (docs/recovery.md). */
module EscrowTheory {
  import opened Bytes
  import opened Pokemon
  import opened Journal
  import opened World
  import opened Escrow

  // ---- Belief against reality

  /** The trades that the durable record counts as finished. */
  function Counted(r: Record): nat
    requires |r.history| > 0
  {
    Done(LastWorking(r.history))
  }

  ghost predicate Journaled(start: View, p: Mon, sha: Mon -> Digest, v: View)
  {
    Coherent(start, p, sha, v) && v.journal.Some?
  }

  lemma JournaledFacts(start: View, p: Mon, sha: Mon -> Digest, v: View)
    requires Journaled(start, p, sha, v)
    ensures v.journal.Some?
    ensures var r := v.journal.value;
      && |r.history| > 0 && Counted(r) <= |v.deals|
      && Believes(r, v.deals, p, sha) && Evident(r, v.artifacts, sha) && ValidRecord(r)
  {
    hide NoMail, Ledger;
  }

  /**
   The consoles hold exactly what the finished trades left them, or one swap more; and only when the
   last state before recovery is one of the three announcements. So in every other state the journal
   knows the truth.
   */
  lemma BeliefAgainstReality(start: View, p: Mon, sha: Mon -> Digest, v: View)
    requires Journaled(start, p, sha, v)
    ensures var r := v.journal.value; |r.history| > 0 && Counted(r) <= |v.deals| <= Counted(r) + 1
    ensures var r := v.journal.value; var k := Counted(r); var booked := Ledger(start, v.deals[..k]);
      || SameHoldings(v, booked)
      || (Started(LastWorking(r.history)) && |v.deals| == k + 1 && v.deals[k].console == ConsoleOf(k)
          && SameHoldings(v, Swap(booked, v.deals[k].console, v.deals[k].offered, v.deals[k].received)))
  {
    hide *;
    JournaledFacts(start, p, sha, v);
    JournaledPlan(start, p, sha, v);
    CountedDeals(v.journal.value, v.deals, p, sha);
    var k := Counted(v.journal.value);
    if |v.deals| == k {
      assert v.deals[..k] == v.deals;
    } else {
      assert v.deals == v.deals[..k] + [v.deals[k]];
      LedgerPush(start, v.deals[..k], v.deals[k]);
      PlannedAt(start, v.deals, p, k);
    }
  }

  lemma CountedDeals(r: Record, deals: seq<Deal>, p: Mon, sha: Mon -> Digest)
    requires Believes(r, deals, p, sha)
    ensures |r.history| > 0
    ensures |deals| == Counted(r) || (|deals| == Counted(r) + 1 && Started(LastWorking(r.history)))
  {}

  /** The record of label `l` is `m`: the digest says so, and `m` is where the journal puts it. */
  ghost predicate ClaimTrue(r: Record, l: Label, m: Mon, sha: Mon -> Digest, booked: View)
  {
    && l in r.pokemon && r.pokemon[l] == Some(sha(m)) && l in r.locations
    && match r.locations[l]
       case OnGba => m in booked.gba
       case OnSwitch => m in booked.switch
       case AtBroker => m in booked.broker
       case _ => true
  }

  /** Nothing is claimed about a record that no trade has shown yet. */
  predicate ClaimsNothing(r: Record, l: Label)
  {
    && l in r.pokemon && r.pokemon[l] == None && l in r.locations
    && r.locations[l] in {GbaUnobserved, SwitchUnobserved}
  }

  lemma PlannedAt(start: View, deals: seq<Deal>, p: Mon, k: nat)
    requires Planned(start, deals, p) && k < |deals|
    ensures k < 3 && deals[k].console == ConsoleOf(k) && deals[k].offered == Latest(deals[..k], p)
    ensures Latest(deals[..k], p) in Ledger(start, deals[..k]).broker
    ensures deals[k].swapped ==> deals[k].received in Holding(Ledger(start, deals[..k]), ConsoleOf(k))
  {
    hide Ledger, Holding;
    assert PlannedDeal(start, deals, k, p);
  }

  /** The ledger after one more confirmed trade. */
  lemma LedgerStep(start: View, deals: seq<Deal>, p: Mon, k: nat)
    requires Planned(start, deals, p) && k < |deals| && deals[k].swapped
    ensures var before := Ledger(start, deals[..k]);
      && k < 3
      && Ledger(start, deals[..k + 1]) == Swap(before, ConsoleOf(k), Latest(deals[..k], p), deals[k].received)
      && Latest(deals[..k], p) in before.broker && deals[k].received in Holding(before, ConsoleOf(k))
  {
    hide *;
    PlannedAt(start, deals, p, k);
    assert deals[..k + 1] == deals[..k] + [deals[k]];
    LedgerPush(start, deals[..k], deals[k]);
  }

  /** A swap moves the two records and leaves the other console alone. */
  lemma SwapMoves(v: View, c: Console, offered: Mon, received: Mon)
    ensures var w := Swap(v, c, offered, received);
      && received in w.broker
      && (c == Switch ==> offered in w.switch && w.gba == v.gba)
      && (c == Gba ==> offered in w.gba && w.switch == v.switch)
  {}

  lemma LedgerAfter(start: View, deals: seq<Deal>, p: Mon, k: nat)
    requires Planned(start, deals, p) && k <= |deals| && (forall i | 0 <= i < k :: deals[i].swapped)
    ensures k <= 3
    ensures k == 0 ==> Ledger(start, deals[..k]) == start
    ensures k >= 1 ==> deals[k - 1].received in Ledger(start, deals[..k]).broker
    ensures 1 <= k <= 2 ==> p in Ledger(start, deals[..k]).switch
    ensures k >= 2 ==> deals[0].received in Ledger(start, deals[..k]).gba
    ensures k >= 3 ==> deals[1].received in Ledger(start, deals[..k]).switch
  {
    hide *;
    if k == 0 {
      LedgerStart(start, deals);
    } else {
      LedgerStep(start, deals, p, k - 1);
      LedgerAfter(start, deals, p, k - 1);
      Consoles();
      SwapMoves(Ledger(start, deals[..k - 1]), ConsoleOf(k - 1), Latest(deals[..k - 1], p), deals[k - 1].received);
      LatestIs(deals, p, k - 1);
    }
  }

  lemma LedgerStart(start: View, deals: seq<Deal>)
    ensures Ledger(start, deals[..0]) == start
  {}

  lemma Consoles()
    ensures ConsoleOf(0) == ConsoleOf(2) == Switch && ConsoleOf(1) == Gba
  {}

  lemma LatestIs(deals: seq<Deal>, p: Mon, k: nat)
    requires k <= |deals|
    ensures Latest(deals[..k], p) == if k == 0 then p else deals[k - 1].received
  {}

  lemma BelievedMaps(r: Record, deals: seq<Deal>, p: Mon, sha: Mon -> Digest)
    requires Believes(r, deals, p, sha)
    ensures |r.history| > 0 && Counted(r) <= |deals| && Counted(r) <= 3
    ensures forall i | 0 <= i < Counted(r) :: deals[i].swapped
    ensures r.pokemon == HashesAt(Counted(r), deals, p, sha) && r.locations == LocationsAt(LastWorking(r.history))
    ensures LastWorking(r.history) == Complete ==> deals[2].received == p
  {}

  /** Every certain claim of a durable record is true of what the trades it counts left behind. */
  lemma ClaimsAreTrue(start: View, p: Mon, sha: Mon -> Digest, v: View)
    requires Journaled(start, p, sha, v) && p in start.broker
    ensures var r := v.journal.value; |r.history| > 0 && Counted(r) <= |v.deals|
    ensures var r := v.journal.value; var k := Counted(r); var booked := Ledger(start, v.deals[..k]);
      && ClaimTrue(r, P, p, sha, booked)
      && (if k >= 1 then ClaimTrue(r, B, v.deals[0].received, sha, booked) else ClaimsNothing(r, B))
      && (if k >= 2 then ClaimTrue(r, A, v.deals[1].received, sha, booked) else ClaimsNothing(r, A))
  {
    hide *;
    JournaledFacts(start, p, sha, v);
    JournaledPlan(start, p, sha, v);
    var r := v.journal.value;
    BelievedMaps(r, v.deals, p, sha);
    LedgerAfter(start, v.deals, p, Counted(r));
    ClaimsAt(r, v.deals, p, sha, Ledger(start, v.deals[..Counted(r)]));
  }

  /** One swap ahead of the record: the announced trade took place, and the record does not say so yet. */
  ghost predicate Ahead(v: View)
  {
    && v.journal.Some? && |v.journal.value.history| > 0
    && var r := v.journal.value;
       Started(LastWorking(r.history)) && |v.deals| == Counted(r) + 1 && v.deals[Counted(r)].swapped
  }

  lemma BookedIsReal(start: View, p: Mon, sha: Mon -> Digest, v: View)
    requires Journaled(start, p, sha, v) && !Ahead(v)
    ensures var r := v.journal.value; |r.history| > 0 && Counted(r) <= |v.deals|
    ensures SameHoldings(v, Ledger(start, v.deals[..Counted(v.journal.value)]))
  {
    JournaledFacts(start, p, sha, v);
    JournaledPlan(start, p, sha, v);
    BeliefAgainstReality(start, p, sha, v);
    hide Ledger, Swap, Started, Counted, LastWorking, Journaled, Believes, Evident, ValidRecord, Planned, SameHoldings;
    var k := Counted(v.journal.value);
    if |v.deals| == k + 1 && !v.deals[k].swapped {
      Unswapped(start, v.deals, k);
    }
  }

  lemma Unswapped(start: View, deals: seq<Deal>, k: nat)
    requires |deals| == k + 1 && !deals[k].swapped
    ensures Ledger(start, deals) == Ledger(start, deals[..k])
  {
    hide Ledger;
    assert deals == deals[..k] + [deals[k]];
    LedgerPush(start, deals[..k], deals[k]);
  }

  /**
   Unless a swap is ahead of the record, every certain claim is true of the holdings themselves. In
   particular it is whenever the last working state is not one of the three announcements.
   */
  lemma ClaimsHoldNow(start: View, p: Mon, sha: Mon -> Digest, v: View)
    requires Journaled(start, p, sha, v) && p in start.broker && !Ahead(v)
    ensures var r := v.journal.value; |r.history| > 0 && Counted(r) <= |v.deals|
    ensures var r := v.journal.value; var k := Counted(r);
      && ClaimTrue(r, P, p, sha, v)
      && (if k >= 1 then ClaimTrue(r, B, v.deals[0].received, sha, v) else ClaimsNothing(r, B))
      && (if k >= 2 then ClaimTrue(r, A, v.deals[1].received, sha, v) else ClaimsNothing(r, A))
  {
    hide Ledger, Journaled, LastWorking, Ahead, ClaimsNothing;
    ClaimsAreTrue(start, p, sha, v);
    BookedIsReal(start, p, sha, v);
  }

  lemma JournaledPlan(start: View, p: Mon, sha: Mon -> Digest, v: View)
    requires Journaled(start, p, sha, v)
    ensures Planned(start, v.deals, p) && SameHoldings(v, Ledger(start, v.deals))
  {
    hide NoMail, Ledger, Planned, SameHoldings, Believes, Evident;
  }

  lemma ClaimsAt(r: Record, deals: seq<Deal>, p: Mon, sha: Mon -> Digest, booked: View)
    requires |r.history| > 0 && Counted(r) <= |deals| && Counted(r) <= 3
    requires r.pokemon == HashesAt(Counted(r), deals, p, sha) && r.locations == LocationsAt(LastWorking(r.history))
    requires LastWorking(r.history) == Complete ==> deals[2].received == p
    requires var k := Counted(r);
      && (k == 0 ==> p in booked.broker) && (1 <= k <= 2 ==> p in booked.switch)
      && (k >= 1 ==> deals[k - 1].received in booked.broker)
      && (k >= 2 ==> deals[0].received in booked.gba) && (k >= 3 ==> deals[1].received in booked.switch)
    ensures var k := Counted(r);
      && ClaimTrue(r, P, p, sha, booked)
      && (if k >= 1 then ClaimTrue(r, B, deals[0].received, sha, booked) else ClaimsNothing(r, B))
      && (if k >= 2 then ClaimTrue(r, A, deals[1].received, sha, booked) else ClaimsNothing(r, A))
  {
    hide LastWorking;
  }

  /** COMPLETE: the GBA gave A for B, the Switch gave B for A, and the broker is as it was. */
  lemma CompleteMeansExchanged(start: View, p: Mon, sha: Mon -> Digest, v: View)
    requires Journaled(start, p, sha, v) && v.journal.value.state == Complete && p in start.broker
    ensures |v.deals| == 3 && forall i | 0 <= i < 3 :: v.deals[i].swapped
    ensures var b, a := v.deals[0].received, v.deals[1].received;
      && b in start.switch && a in start.gba
      && v.gba == start.gba - multiset{a} + multiset{b}
      && v.switch == start.switch - multiset{b} + multiset{a}
      && v.broker == start.broker
      && v.journal.value.pokemon == map[A := Some(sha(a)), B := Some(sha(b)), P := Some(sha(p))]
      && v.journal.value.locations == map[A := OnSwitch, B := OnGba, P := AtBroker]
  {
    JournaledFacts(start, p, sha, v);
    JournaledPlan(start, p, sha, v);
    CompleteFacts(v.journal.value, v.deals, p, sha);
    hide Ledger, Evident, Planned, ValidRecord, Believes, LastWorking, Coherent, Journaled;
    ThreeDeals(start, v.deals, p);
  }

  lemma CompleteFacts(r: Record, deals: seq<Deal>, p: Mon, sha: Mon -> Digest)
    requires Believes(r, deals, p, sha) && r.state == Complete
    ensures |deals| == 3 && deals[2].received == p && forall i | 0 <= i < 3 :: deals[i].swapped
    ensures r.pokemon == map[A := Some(sha(deals[1].received)), B := Some(sha(deals[0].received)), P := Some(sha(p))]
    ensures r.locations == map[A := OnSwitch, B := OnGba, P := AtBroker]
  {
    LastWorkingNow(r);
    hide ValidRecord;
  }

  lemma ThreeDeals(start: View, deals: seq<Deal>, p: Mon)
    requires Planned(start, deals, p) && |deals| == 3 && (forall i | 0 <= i < 3 :: deals[i].swapped)
    requires deals[2].received == p && p in start.broker
    ensures var b, a := deals[0].received, deals[1].received; var v := Ledger(start, deals);
      && b in start.switch && a in start.gba
      && v.gba == start.gba - multiset{a} + multiset{b}
      && v.switch == start.switch - multiset{b} + multiset{a}
      && v.broker == start.broker
  {
    hide *;
    LedgerStart(start, deals);
    LedgerStep(start, deals, p, 0);
    LedgerStep(start, deals, p, 1);
    LedgerStep(start, deals, p, 2);
    assert deals[..3] == deals;
    Consoles();
    LatestIs(deals, p, 0);
    LatestIs(deals, p, 1);
    LatestIs(deals, p, 2);
    ThreeSwaps(start, p, deals[0].received, deals[1].received);
  }

  lemma ThreeSwaps(start: View, p: Mon, b: Mon, a: Mon)
    requires p in start.broker && b in Holding(start, Switch)
    requires a in Holding(Swap(start, Switch, p, b), Gba)
    ensures var v := Swap(Swap(Swap(start, Switch, p, b), Gba, b, a), Switch, a, p);
      && b in start.switch && a in start.gba
      && v.gba == start.gba - multiset{a} + multiset{b}
      && v.switch == start.switch - multiset{b} + multiset{a}
      && v.broker == start.broker
  {
    PutTake(start.broker - multiset{p}, b);
    PutTake(start.broker - multiset{p}, a);
    TakePut(start.broker, p);
    PutTake(start.switch - multiset{b}, p);
  }

  lemma PutTake<T>(m: multiset<T>, x: T)
    ensures m + multiset{x} - multiset{x} == m
  {}

  lemma TakePut<T>(m: multiset<T>, x: T)
    requires x in m
    ensures m - multiset{x} + multiset{x} == m
  {}

  // ---- Whole runs

  /** The durable history and the list of trades only ever grow. */
  lemma {:induction false} TaleOnlyGrows(start: View, p: Mon, sha: Mon -> Digest, past: seq<View>, i: nat, j: nat)
    requires Tale(start, p, sha, past) && i <= j < |past|
    ensures past[i].deals <= past[j].deals
    ensures past[i].journal.Some? ==> past[j].journal.Some? && Extends(past[i].journal.value, past[j].journal.value)
    decreases j
  {
    hide Coherent, Extends;
    if i == j {
      if past[i].journal.Some? {
        ExtendsItself(past[i].journal.value);
      }
    } else {
      TaleOnlyGrows(start, p, sha, past, i, j - 1);
      assert Step(past[j - 1], past[j]);
      if past[i].journal.Some? {
        ExtendsTransitive(past[i].journal.value, past[j - 1].journal.value, past[j].journal.value);
      }
    }
  }

  /** Mail never travels: at every crash point nothing offered and no captured artifact holds any. */
  lemma MailNeverTravels(start: View, p: Mon, sha: Mon -> Digest, past: seq<View>, n: nat)
    requires Tale(start, p, sha, past) && n < |past|
    ensures forall d | d in past[n].deals :: !HoldsMail(d.offered)
    ensures forall key | key in past[n].artifacts && key.part in {ArtifactA, ArtifactB, ArtifactP} ::
      !HoldsMail(past[n].artifacts[key])
  {
    hide HoldsMail, Step, Believes, Evident, Ledger, Planned, Genuine;
    assert Coherent(start, p, sha, past[n]);
  }

  /** At every crash point the durable record carries an error exactly when it is marked for recovery. */
  lemma ErrorNotedIff(start: View, p: Mon, sha: Mon -> Digest, past: seq<View>, n: nat)
    requires Tale(start, p, sha, past) && n < |past| && past[n].journal.Some?
    ensures past[n].journal.value.failed <==> past[n].journal.value.state == RecoveryRequired
  {
    hide NoMail, Step, Evident, Ledger, Planned, Genuine, ValidRecord;
    assert Coherent(start, p, sha, past[n]);
  }

  /** No record is created or lost, at any crash point. */
  lemma {:induction false} TaleConserves(start: View, p: Mon, sha: Mon -> Digest, past: seq<View>, i: nat)
    requires Tale(start, p, sha, past) && i < |past|
    ensures past[i].gba + past[i].switch + past[i].broker == past[0].gba + past[0].switch + past[0].broker
  {
    hide Coherent;
    if i > 0 {
      TaleConserves(start, p, sha, past, i - 1);
      assert Step(past[i - 1], past[i]);
    }
  }

  /**
   Trade `k` of any run was attempted exactly once, at a moment when the durable record announced it
   and the broker held what it offered.
   */
  lemma {:induction false} EveryTradeAnnounced(start: View, p: Mon, sha: Mon -> Digest, past: seq<View>, k: nat, n: nat)
    returns (j: nat)
    requires Tale(start, p, sha, past) && past[0].deals == [] && n < |past| && k < |past[n].deals|
    ensures j < n && |past[j].deals| == k && |past[j + 1].deals| == k + 1
    ensures past[j].journal.Some? && past[j].journal.value.state == StartedOf(k)
    ensures past[j + 1].deals[k] == past[n].deals[k] && past[n].deals[k].offered in past[j].broker
  {
    hide Coherent, Extends;
    assert n > 0;
    assert Step(past[n - 1], past[n]);
    if |past[n - 1].deals| > k {
      j := EveryTradeAnnounced(start, p, sha, past, k, n - 1);
    } else {
      j := n - 1;
    }
  }

  /** At every crash point the trades attempted are a prefix of Switch, GBA, Switch, whatever came of them. */
  lemma AttemptsInOrder(start: View, p: Mon, sha: Mon -> Digest, past: seq<View>, n: nat)
    requires Tale(start, p, sha, past) && n < |past|
    ensures |past[n].deals| <= 3
    ensures forall i | 0 <= i < |past[n].deals| :: past[n].deals[i].console == [Switch, Gba, Switch][i]
    ensures forall i | 0 <= i < |past[n].deals| - 1 :: past[n].deals[i].swapped
  {
    var v := past[n];
    assert Coherent(start, p, sha, v);
    forall i | 0 <= i < |v.deals|
      ensures v.deals[i].console == [Switch, Gba, Switch][i]
    {
      assert PlannedDeal(start, v.deals, i, p);
    }
    hide NoMail, Ledger, Believes, Evident;
  }

  /** The announcement of trade `k` is entry `1 + 3 * k` of the durable history, for every trade attempted. */
  lemma AnnouncementRecorded(start: View, p: Mon, sha: Mon -> Digest, v: View, k: nat)
    requires Journaled(start, p, sha, v) && k < |v.deals|
    ensures var h := v.journal.value.history; 1 + 3 * k < |h| <= 10 && h[1 + 3 * k].state == StartedOf(k)
  {
    hide NoMail, HoldsMail;
    JournaledFacts(start, p, sha, v);
    var r := v.journal.value;
    var s := LastWorking(r.history);
    assert |v.deals| <= Done(s) || (Started(s) && |v.deals| == Done(s) + 1);
    AnnouncementRank(s, k);
    hide Ledger, Evident, Coherent, Believes, LastWorking, Started, Done;
    WorkingPath(r.history, 1 + 3 * k);
  }

  lemma AnnouncementRank(s: State, k: nat)
    requires k < Done(s) || (Started(s) && k <= Done(s))
    ensures k <= 2 && 1 + 3 * k <= Rank(s)
  {}

  lemma WorkingPath(h: seq<Entry>, i: nat)
    requires ValidHistory(h) && i <= Rank(LastWorking(h))
    ensures i < |h| <= 10 && Rank(h[i].state) == i
    ensures i == 1 ==> h[i].state == StartedOf(0)
    ensures i == 4 ==> h[i].state == StartedOf(1)
    ensures i == 7 ==> h[i].state == StartedOf(2)
  {
    var last := |h| - 1;
    RecoveryLast(h);
    HistoryRank(h, last);
    if last > 0 {
      HistoryRank(h, last - 1);
    }
    hide ValidHistory;
    assert i < |h| && h[i].state != RecoveryRequired;
    HistoryRank(h, i);
  }

  /** Every digest in a durable record names a stored artifact of that transaction with that digest. */
  lemma EvidenceAtEveryCrash(start: View, p: Mon, sha: Mon -> Digest, past: seq<View>, n: nat, l: Label)
    requires Tale(start, p, sha, past) && n < |past| && past[n].journal.Some?
    requires var r := past[n].journal.value; l in r.pokemon && r.pokemon[l].Some?
    ensures var r := past[n].journal.value; var key := ArtifactKey(r.transaction, PartOf(l), r.pokemon[l].value);
      key in past[n].artifacts && sha(past[n].artifacts[key]) == r.pokemon[l].value
  {
    assert Coherent(start, p, sha, past[n]);
    hide NoMail, Ledger, Believes, Planned;
  }
}
