/**
 The escrow as a relation between the journal's belief and physical ownership: what holds of the
 outside world at every crash point, and what a reader of the journal may conclude from it.
 */
module Escrow {
  import opened Bytes
  import opened Pokemon
  import opened Journal
  import opened World

  // ---- Belief

  /** The last state before recovery, if any. */
  function LastWorking(h: seq<Entry>): State
    requires |h| > 0
  {
    var last := h[|h| - 1].state;
    if last == RecoveryRequired && |h| > 1 then h[|h| - 2].state else last
  }

  /** A state that announces a trade whose outcome is not recorded yet. */
  predicate Started(s: State)
  {
    s == SwitchStage1Started || s == GbaStageStarted || s == SwitchStage2Started
  }

  /** How many trades a state records as finished. */
  function Done(s: State): nat
  {
    if Rank(s) <= 1 then 0 else if Rank(s) <= 4 then 1 else if Rank(s) <= 7 then 2 else 3
  }

  function ConsoleOf(i: nat): Console
  {
    if i == 1 then Gba else Switch
  }

  function StartedOf(i: nat): State
  {
    if i == 0 then SwitchStage1Started else if i == 1 then GbaStageStarted else SwitchStage2Started
  }

  /** Where the journal says the three records are. */
  function LocationsAt(s: State): map<Label, Place>
  {
    if Done(s) == 0 then map[A := GbaUnobserved, B := SwitchUnobserved, P := AtBroker]
    else if Done(s) == 1 then map[A := GbaUnobserved, B := AtBroker, P := OnSwitch]
    else if Done(s) == 2 then map[A := AtBroker, B := OnGba, P := OnSwitch]
    else map[A := OnSwitch, B := OnGba, P := if s == Complete then AtBroker else AtBrokerUnverified]
  }

  /** The digests the journal knows after `k` trades. */
  function HashesAt(k: nat, deals: seq<Deal>, p: Mon, sha: Mon -> Digest): map<Label, Option<Digest>>
    requires k <= |deals|
  {
    map[A := if k >= 2 then Some(sha(deals[1].received)) else None,
        B := if k >= 1 then Some(sha(deals[0].received)) else None,
        P := Some(sha(p))]
  }

  function PartOf(l: Label): ArtifactLabel
  {
    match l
    case A => ArtifactA
    case B => ArtifactB
    case P => ArtifactP
    case Unlisted(_) => ArtifactReturned
  }

  /** Every digest in the record names a stored artifact with those bytes. */
  predicate Evident(r: Record, artifacts: map<ArtifactKey, Mon>, sha: Mon -> Digest)
  {
    forall l | l in r.pokemon && r.pokemon[l].Some? ::
      var key := ArtifactKey(r.transaction, PartOf(l), r.pokemon[l].value);
      key in artifacts && sha(artifacts[key]) == key.digest
  }

  /** A record that believes exactly the first trades, or has announced the one that is last. */
  ghost predicate Believes(r: Record, deals: seq<Deal>, p: Mon, sha: Mon -> Digest)
  {
    && ValidRecord(r)
    && var s := LastWorking(r.history);
       var k := Done(s);
    && (|deals| == k || (Started(s) && |deals| == k + 1))
    && (forall i | 0 <= i < k :: deals[i].swapped)
    && r.locations == LocationsAt(s)
    && r.pokemon == HashesAt(k, deals, p, sha)
    && (k >= 2 ==> r.slot.Some?)
    && (r.failed <==> r.state == RecoveryRequired)
    && (s == Complete ==> deals[2].received == p)
  }

  // ---- Reality

  /** What everybody holds after these deals. */
  function Ledger(start: View, deals: seq<Deal>): View
  {
    if deals == [] then start
    else
      var n := |deals| - 1;
      var before := Ledger(start, deals[..n]);
      if deals[n].swapped then Swap(before, deals[n].console, deals[n].offered, deals[n].received) else before
  }

  /** What the broker offers next: the placeholder, then always what the last trade brought. */
  function Latest(deals: seq<Deal>, p: Mon): Mon
  {
    if deals == [] then p else deals[|deals| - 1].received
  }

  predicate SameHoldings(v: View, w: View)
  {
    v.gba == w.gba && v.switch == w.switch && v.broker == w.broker
  }

  /**
   The deals follow the plan: Switch, GBA, Switch; first the placeholder is offered, then each time
   what the trade before brought, which the broker holds at that moment; only the last may have failed.
   */
  predicate Planned(start: View, deals: seq<Deal>, p: Mon)
  {
    && |deals| <= 3
    && (forall i | 0 <= i < |deals| :: PlannedDeal(start, deals, i, p))
    && forall i | 0 <= i < |deals| - 1 :: deals[i].swapped
  }

  predicate PlannedDeal(start: View, deals: seq<Deal>, i: nat, p: Mon)
    requires i < |deals|
  {
    var before := Ledger(start, deals[..i]);
    && deals[i].console == ConsoleOf(i)
    && deals[i].offered == (if i == 0 then p else deals[i - 1].received)
    && deals[i].offered in before.broker
    && (deals[i].swapped ==> deals[i].received in Holding(before, deals[i].console))
  }

  ghost predicate Genuine(artifacts: map<ArtifactKey, Mon>, sha: Mon -> Digest)
  {
    forall key | key in artifacts :: sha(artifacts[key]) == key.digest
  }

  /** No record that holds mail was ever offered, or stored as more than the candidate that came back. */
  ghost predicate NoMail(v: View)
  {
    && (forall d | d in v.deals :: !HoldsMail(d.offered))
    && forall key | key in v.artifacts && key.part != ArtifactReturned :: !HoldsMail(v.artifacts[key])
  }

  lemma NoMailDeal(v: View, w: View, d: Deal)
    requires NoMail(v) && w.deals == v.deals + [d] && w.artifacts == v.artifacts && !HoldsMail(d.offered)
    ensures NoMail(w)
  {
    hide HoldsMail;
  }

  lemma NoMailArtifact(v: View, w: View, key: ArtifactKey, mon: Mon)
    requires NoMail(v) && (key.part == ArtifactReturned || !HoldsMail(mon))
    requires w == v || w == v.(artifacts := v.artifacts[key := mon])
    ensures NoMail(w)
  {
    hide HoldsMail;
  }

  lemma NoMailSame(v: View, w: View)
    requires NoMail(v) && w.deals == v.deals && w.artifacts == v.artifacts
    ensures NoMail(w)
  {
    hide HoldsMail;
  }

  /** What holds of the world at every crash point of every run. */
  ghost predicate Coherent(start: View, p: Mon, sha: Mon -> Digest, v: View)
  {
    && SameHoldings(v, Ledger(start, v.deals))
    && Planned(start, v.deals, p)
    && Genuine(v.artifacts, sha) && NoMail(v)
    && (v.journal == None ==> v.deals == [])
    && (v.journal.Some? ==> Believes(v.journal.value, v.deals, p, sha) && Evident(v.journal.value, v.artifacts, sha))
  }

  /** How the world may change from one crash point to the next. */
  ghost predicate Step(v: View, w: View)
  {
    && (v.journal.Some? ==> w.journal.Some? && Extends(v.journal.value, w.journal.value))
    && v.gba + v.switch + v.broker == w.gba + w.switch + w.broker
    && (w.deals == v.deals || Announced(v, w))
  }

  /** A new deal comes one at a time, under a durable record that announces it, with a record at hand. */
  ghost predicate Announced(v: View, w: View)
  {
    && |w.deals| == |v.deals| + 1 && v.deals == w.deals[..|v.deals|]
    && v.journal.Some? && v.journal.value.history != []
    && v.journal.value.state == StartedOf(|v.deals|) && w.journal == v.journal
    && w.deals[|v.deals|].offered in v.broker
  }

  /** A run so far: every crash point coherent, every step allowed. */
  ghost predicate Tale(start: View, p: Mon, sha: Mon -> Digest, past: seq<View>)
  {
    && |past| > 0
    && (forall v | v in past :: Coherent(start, p, sha, v))
    && forall i | 0 < i < |past| :: Step(past[i - 1], past[i])
  }

  lemma TaleGrows(start: View, p: Mon, sha: Mon -> Digest, past: seq<View>, v: View)
    requires Tale(start, p, sha, past) && Coherent(start, p, sha, v) && Step(past[|past| - 1], v)
    ensures Tale(start, p, sha, past + [v])
  {
    hide Coherent, Step;
    var more := past + [v];
    forall i | 0 < i < |more|
      ensures Step(more[i - 1], more[i])
    {
      if i < |past| {
        assert more[i] == past[i] && more[i - 1] == past[i - 1];
      }
    }
  }

  // ---- Single effects

  lemma LedgerPush(start: View, deals: seq<Deal>, d: Deal)
    ensures Ledger(start, deals + [d]) ==
      if d.swapped then Swap(Ledger(start, deals), d.console, d.offered, d.received) else Ledger(start, deals)
  {
    hide Swap;
    assert (deals + [d])[..|deals|] == deals;
  }

  lemma SwapHoldings(v: View, w: View, c: Console, offered: Mon, received: Mon)
    requires SameHoldings(v, w)
    ensures SameHoldings(Swap(v, c, offered, received), Swap(w, c, offered, received))
  {}

  /** A swap of held records creates and destroys nothing. */
  lemma SwapConserves(v: View, c: Console, offered: Mon, received: Mon)
    requires offered in v.broker && received in Holding(v, c)
    ensures var w := Swap(v, c, offered, received);
      v.gba + v.switch + v.broker == w.gba + w.switch + w.broker
  {
    var here, there := v.broker, Holding(v, c);
    assert here - multiset{offered} + multiset{offered} == here;
    assert there - multiset{received} + multiset{received} == there;
  }

  lemma PlannedPush(start: View, deals: seq<Deal>, p: Mon, d: Deal)
    requires Planned(start, deals, p) && |deals| < 3 && forall i | 0 <= i < |deals| :: deals[i].swapped
    requires d.console == ConsoleOf(|deals|)
    requires d.offered == Latest(deals, p)
    requires d.offered in Ledger(start, deals).broker
    requires d.swapped ==> d.received in Holding(Ledger(start, deals), d.console)
    ensures Planned(start, deals + [d], p)
  {
    hide Ledger, Holding;
    var more := deals + [d];
    forall i | 0 <= i < |more|
      ensures PlannedDeal(start, more, i, p)
    {
      assert more[..i] == deals[..i];
      if i < |deals| {
        assert PlannedDeal(start, deals, i, p);
      } else {
        assert deals[..|deals|] == deals;
      }
    }
  }

  /** The record that the last confirmed trade brought is at hand. */
  lemma ReceivedAtHand(start: View, deals: seq<Deal>)
    requires deals != [] && deals[|deals| - 1].swapped
    ensures deals[|deals| - 1].received in Ledger(start, deals).broker
  {
    hide Ledger;
    var n := |deals| - 1;
    LedgerPush(start, deals[..n], deals[n]);
    assert deals == deals[..n] + [deals[n]];
  }

  lemma DealBelieved(r: Record, deals: seq<Deal>, d: Deal, p: Mon, sha: Mon -> Digest)
    requires Believes(r, deals, p, sha) && r.state == StartedOf(|deals|) && |deals| == Done(r.state)
    ensures Believes(r, deals + [d], p, sha) && r.history != []
    ensures forall i | 0 <= i < |deals| :: deals[i].swapped
  {
    assert LastWorking(r.history) == r.state;
  }

  lemma DealLedger(start: View, v: View, w: View, d: Deal)
    requires SameHoldings(v, Ledger(start, v.deals)) && IsDeal(v, w, d)
    ensures SameHoldings(w, Ledger(start, w.deals)) && w.deals == v.deals + [d]
    ensures w.journal == v.journal && w.artifacts == v.artifacts
  {
    LedgerPush(start, v.deals, d);
    hide Ledger;
  }

  lemma DealHeld(start: View, v: View, d: Deal)
    requires SameHoldings(v, Ledger(start, v.deals)) && d.offered in v.broker
    requires d.swapped ==> d.received in Holding(v, d.console)
    ensures d.offered in Ledger(start, v.deals).broker
    ensures d.swapped ==> d.received in Holding(Ledger(start, v.deals), d.console)
  {
    hide Ledger;
  }

  lemma DealConserves(v: View, w: View, d: Deal)
    requires IsDeal(v, w, d) && d.offered in v.broker
    ensures v.gba + v.switch + v.broker == w.gba + w.switch + w.broker
  {
    if d.swapped {
      SwapConserves(v, d.console, d.offered, d.received);
    }
    hide Swap;
  }

  /** A trade that the durable record announces, of a record at hand, keeps belief and reality in step. */
  lemma DealCoherent(start: View, p: Mon, sha: Mon -> Digest, v: View, w: View, d: Deal)
    requires Coherent(start, p, sha, v) && IsDeal(v, w, d)
    requires v.journal.Some? && v.journal.value.state == StartedOf(|v.deals|) && |v.deals| < 3
    requires |v.deals| == Done(v.journal.value.state)
    requires d.console == ConsoleOf(|v.deals|)
    requires d.offered == Latest(v.deals, p)
    requires d.offered in v.broker && !HoldsMail(d.offered)
    ensures Coherent(start, p, sha, w) && Step(v, w)
  {
    var r := v.journal.value;
    assert d.swapped ==> d.received in Holding(v, d.console);
    hide NoMail, HoldsMail, Ledger, Believes, Evident, Genuine, Swap, SameHoldings, Planned, Extends, IsDeal, Holding;
    DealLedger(start, v, w, d);
    DealHeld(start, v, d);
    DealConserves(v, w, d);
    NoMailDeal(v, w, d);
    DealBelieved(r, v.deals, d, p, sha);
    PlannedPush(start, v.deals, p, d);
    ExtendsItself(r);
    assert w.deals[..|v.deals|] == v.deals;
  }

  /** Opening an endpoint. */
  lemma QuietCoherent(start: View, p: Mon, sha: Mon -> Digest, v: View, w: View)
    requires Coherent(start, p, sha, v) && w == v.(touches := w.touches)
    ensures Coherent(start, p, sha, w) && Step(v, w)
  {
    hide NoMail, Ledger, Believes, Evident, Genuine, Planned, Extends;
    NoMailSame(v, w);
    if v.journal.Some? {
      ExtendsItself(v.journal.value);
    }
  }

  /** Storing bytes under their own digest. */
  lemma ArtifactCoherent(start: View, p: Mon, sha: Mon -> Digest, v: View, w: View, key: ArtifactKey, mon: Mon)
    requires Coherent(start, p, sha, v) && key.digest == sha(mon) && (key.part == ArtifactReturned || !HoldsMail(mon))
    requires w == v || w == v.(artifacts := v.artifacts[key := mon])
    ensures Coherent(start, p, sha, w) && Step(v, w)
  {
    hide NoMail, HoldsMail, Ledger, Believes, Planned, Extends;
    NoMailArtifact(v, w, key, mon);
    if v.journal.Some? {
      ExtendsItself(v.journal.value);
      StillEvident(v.journal.value, v.artifacts, key, mon, sha);
    }
  }

  lemma StillEvident(r: Record, artifacts: map<ArtifactKey, Mon>, key: ArtifactKey, mon: Mon, sha: Mon -> Digest)
    requires Evident(r, artifacts, sha) && key.digest == sha(mon)
    ensures Evident(r, artifacts[key := mon], sha)
  {}

  /** Writing a record that believes the truth, with its evidence already stored. */
  lemma WriteCoherent(start: View, p: Mon, sha: Mon -> Digest, v: View, w: View, r: Record)
    requires Coherent(start, p, sha, v) && (w == v || w == v.(journal := Some(r)))
    requires Believes(r, v.deals, p, sha) && Evident(r, v.artifacts, sha)
    requires v.journal.Some? ==> Extends(v.journal.value, r)
    ensures Coherent(start, p, sha, w) && Step(v, w)
  {
    hide NoMail, Ledger, Believes, Evident, Genuine, Planned, Extends;
    NoMailSame(v, w);
    if v.journal.Some? {
      ExtendsItself(v.journal.value);
    }
  }

  // ---- Transitions of the believed record

  lemma NewRecordBelieves(transaction: nat, p: Mon, sha: Mon -> Digest)
    ensures Believes(NewRecord(transaction, sha(p)), [], p, sha)
  {}

  /** A regular transition that records exactly what has happened. */
  lemma AdvanceBelieves(r: Record, u: Update, deals: seq<Deal>, p: Mon, sha: Mon -> Digest)
    requires Believes(r, deals, p, sha) && NextState(r.state) == Some(u.state) && SlotFits(u.slot) && !u.failed
    requires |deals| == Done(u.state) && forall i | 0 <= i < |deals| :: deals[i].swapped
    requires r.locations + u.locations == LocationsAt(u.state)
    requires r.pokemon + u.pokemon == HashesAt(Done(u.state), deals, p, sha)
    requires HashesFit(r, u.pokemon)
    requires Done(u.state) >= 2 ==> r.slot.Some? || u.slot.Some?
    requires u.state == Complete ==> deals[2].received == p
    ensures Advance(r, u).Ok? && Believes(Advance(r, u).value, deals, p, sha)
  {
    assert r.state != RecoveryRequired && u.state != RecoveryRequired && Allowed(r.state, u.state);
    hide HashesFit, HashesAt, LocationsAt, Done, NextState, Started, LastWorking, SlotFits;
    AdvanceValid(r, u);
    LastWorkingNow(Advance(r, u).value);
    hide ValidRecord;
  }

  /** Recovery keeps the belief of the state it interrupts. */
  lemma RecoverBelieves(r: Record, deals: seq<Deal>, p: Mon, sha: Mon -> Digest)
    requires Believes(r, deals, p, sha) && !Terminal(r.state)
    ensures Advance(r, RECOVER).Ok? && Believes(Advance(r, RECOVER).value, deals, p, sha)
    ensures Advance(r, RECOVER).value.pokemon == r.pokemon && Advance(r, RECOVER).value.transaction == r.transaction
  {
    AdvanceValid(r, RECOVER);
    assert r.pokemon + map[] == r.pokemon && r.locations + map[] == r.locations;
    var h := Advance(r, RECOVER).value.history;
    assert h[|h| - 2] == r.history[|r.history| - 1];
    LastWorkingNow(r);
    hide ValidRecord;
  }

  lemma LastWorkingNow(r: Record)
    requires ValidRecord(r) && r.state != RecoveryRequired
    ensures r.history != [] && LastWorking(r.history) == r.state
  {}

  // ---- The four captures of the coordinator

  function CaptureB(digest: Digest): Update
  {
    Update(SwitchBCaptured, map[B := Some(digest)], map[B := AtBroker, P := OnSwitch], None, false)
  }

  function CaptureA(digest: Digest, slot: int): Update
  {
    Update(GbaACaptured, map[A := Some(digest)], map[A := AtBroker, B := OnGba], Some(slot), false)
  }

  const COMMIT_A: Update :=
    Update(ACommittedToSwitch, map[], map[A := OnSwitch, P := AtBrokerUnverified, B := OnGba], None, false)

  const FINISH: Update := Update(Complete, map[], map[P := AtBroker], None, false)

  lemma CaptureBBelieves(r: Record, deals: seq<Deal>, p: Mon, sha: Mon -> Digest)
    requires Believes(r, deals, p, sha) && r.state == SwitchStage1Started
    requires |deals| == 1 && deals[0].swapped
    ensures var u := CaptureB(sha(deals[0].received));
      Advance(r, u).Ok? && Believes(Advance(r, u).value, deals, p, sha)
  {
    LastWorkingNow(r);
    AdvanceBelieves(r, CaptureB(sha(deals[0].received)), deals, p, sha);
  }

  lemma CaptureABelieves(r: Record, deals: seq<Deal>, p: Mon, sha: Mon -> Digest, slot: int)
    requires Believes(r, deals, p, sha) && r.state == GbaStageStarted
    requires |deals| == 2 && deals[1].swapped && 0 <= slot <= 5
    ensures var u := CaptureA(sha(deals[1].received), slot);
      Advance(r, u).Ok? && Believes(Advance(r, u).value, deals, p, sha)
  {
    LastWorkingNow(r);
    AdvanceBelieves(r, CaptureA(sha(deals[1].received), slot), deals, p, sha);
  }

  lemma CommitABelieves(r: Record, deals: seq<Deal>, p: Mon, sha: Mon -> Digest)
    requires Believes(r, deals, p, sha) && r.state == SwitchStage2Started
    requires |deals| == 3 && deals[2].swapped
    ensures Advance(r, COMMIT_A).Ok? && Believes(Advance(r, COMMIT_A).value, deals, p, sha)
  {
    LastWorkingNow(r);
    AdvanceBelieves(r, COMMIT_A, deals, p, sha);
  }

  lemma FinishBelieves(r: Record, deals: seq<Deal>, p: Mon, sha: Mon -> Digest)
    requires Believes(r, deals, p, sha) && r.state == ACommittedToSwitch
    requires |deals| == 3 && deals[2].received == p
    ensures Advance(r, FINISH).Ok? && Believes(Advance(r, FINISH).value, deals, p, sha)
  {
    LastWorkingNow(r);
    AdvanceBelieves(r, FINISH, deals, p, sha);
  }

  /** The transitions that only announce or confirm. */
  lemma PlainBelieves(r: Record, s: State, deals: seq<Deal>, p: Mon, sha: Mon -> Digest)
    requires Believes(r, deals, p, sha) && NextState(r.state) == Some(s) && Done(s) == Done(r.state) && s != Complete
    requires |deals| == Done(s)
    ensures Advance(r, Plain(s)).Ok? && Believes(Advance(r, Plain(s)).value, deals, p, sha)
  {
    LastWorkingNow(r);
    assert r.pokemon + map[] == r.pokemon && r.locations + map[] == r.locations;
    AdvanceBelieves(r, Plain(s), deals, p, sha);
  }

  // ---- A record in memory beside the world

  /** The record in use believes the truth, has its evidence stored, and extends the durable one. */
  ghost predicate Live(start: View, p: Mon, sha: Mon -> Digest, v: View, r: Record)
  {
    && Coherent(start, p, sha, v)
    && v.journal.Some? && Extends(v.journal.value, r)
    && Believes(r, v.deals, p, sha) && Evident(r, v.artifacts, sha)
  }

  lemma WriteLive(start: View, p: Mon, sha: Mon -> Digest, v: View, w: View, r: Record, u: Update)
    requires Live(start, p, sha, v, r) && Advance(r, u).Ok?
    requires Believes(Advance(r, u).value, v.deals, p, sha) && Evident(Advance(r, u).value, v.artifacts, sha)
    requires w == v || w == v.(journal := Some(Advance(r, u).value))
    ensures Live(start, p, sha, w, Advance(r, u).value) && Step(v, w)
  {
    var next := Advance(r, u).value;
    AdvanceExtends(r, u);
    hide Advance, Coherent, Step, Extends, Believes, Evident;
    ExtendsTransitive(v.journal.value, r, next);
    ExtendsItself(next);
    WriteCoherent(start, p, sha, v, w, next);
  }

  lemma DealLive(start: View, p: Mon, sha: Mon -> Digest, v: View, w: View, d: Deal)
    requires v.journal.Some? && Live(start, p, sha, v, v.journal.value) && IsDeal(v, w, d)
    requires v.journal.value.state == StartedOf(|v.deals|) && |v.deals| < 3
    requires |v.deals| == Done(v.journal.value.state) && d.console == ConsoleOf(|v.deals|)
    requires d.offered == Latest(v.deals, p)
    requires d.offered in v.broker && !HoldsMail(d.offered)
    ensures Live(start, p, sha, w, v.journal.value) && Step(v, w)
    ensures w.journal == v.journal && w.artifacts == v.artifacts && w.deals == v.deals + [d] && w.touches == v.touches
  {
    assert SameHoldings(v, Ledger(start, v.deals));
    assert w.touches == v.touches;
    hide HoldsMail, Coherent, Step, Extends, Believes, Evident, SameHoldings, IsDeal;
    DealLedger(start, v, w, d);
    DealCoherent(start, p, sha, v, w, d);
    DealBelieved(v.journal.value, v.deals, d, p, sha);
  }

  lemma ArtifactLive(start: View, p: Mon, sha: Mon -> Digest, v: View, w: View, r: Record, key: ArtifactKey, mon: Mon)
    requires Live(start, p, sha, v, r) && key.digest == sha(mon) && (key.part == ArtifactReturned || !HoldsMail(mon))
    requires w == v || w == v.(artifacts := v.artifacts[key := mon])
    ensures Live(start, p, sha, w, r) && Step(v, w)
  {
    hide HoldsMail, Coherent, Step, Extends, Believes, Evident;
    ArtifactCoherent(start, p, sha, v, w, key, mon);
    StillEvident(r, v.artifacts, key, mon, sha);
  }

  lemma QuietLive(start: View, p: Mon, sha: Mon -> Digest, v: View, w: View, r: Record)
    requires Live(start, p, sha, v, r) && w == v.(touches := w.touches)
    ensures Live(start, p, sha, w, r) && Step(v, w)
  {
    hide Coherent, Step, Extends, Believes, Evident;
    QuietCoherent(start, p, sha, v, w);
  }

  /** The evidence of a capture: the artifact was stored before. */
  lemma CaptureEvident(r: Record, u: Update, l: Label, mon: Mon, artifacts: map<ArtifactKey, Mon>, sha: Mon -> Digest)
    requires Evident(r, artifacts, sha) && Advance(r, u).Ok? && u.pokemon == map[l := Some(sha(mon))]
    requires var key := ArtifactKey(r.transaction, PartOf(l), sha(mon)); key in artifacts && artifacts[key] == mon
    ensures Evident(Advance(r, u).value, artifacts, sha)
  {}

  lemma PlainEvident(r: Record, u: Update, artifacts: map<ArtifactKey, Mon>, sha: Mon -> Digest)
    requires Evident(r, artifacts, sha) && Advance(r, u).Ok? && u.pokemon == map[]
    ensures Evident(Advance(r, u).value, artifacts, sha)
  {}

  /** What the last confirmed trade brought is in the broker's hands. */
  lemma AtHand(start: View, p: Mon, sha: Mon -> Digest, v: View)
    requires Coherent(start, p, sha, v) && v.deals != [] && v.deals[|v.deals| - 1].swapped
    ensures v.deals[|v.deals| - 1].received in v.broker
  {
    hide Ledger, NoMail;
    ReceivedAtHand(start, v.deals);
  }

  /** The first durable record of a run. */
  lemma CreatedLive(start: View, p: Mon, sha: Mon -> Digest, v: View, w: View, t: nat)
    requires Coherent(start, p, sha, v) && v.journal == None
    requires ArtifactKey(t, ArtifactP, sha(p)) in v.artifacts && w == v.(journal := Some(NewRecord(t, sha(p))))
    ensures Live(start, p, sha, w, NewRecord(t, sha(p))) && Step(v, w) && Done(NewRecord(t, sha(p)).state) == |w.deals|
  {
    NewRecordBelieves(t, p, sha);
    assert Evident(NewRecord(t, sha(p)), v.artifacts, sha);
    ExtendsItself(NewRecord(t, sha(p)));
    NoMailSame(v, w);
    hide NoMail, Believes, Evident, Extends, Ledger, Planned;
  }

  /** Only the record in memory can bring the recovery mark to disk. */
  lemma UnmarkedDisk(start: View, p: Mon, sha: Mon -> Digest, v: View, r: Record)
    requires Live(start, p, sha, v, r) && r.state != RecoveryRequired
    ensures v.journal.Some? && v.journal.value.state != RecoveryRequired
  {
    var d := v.journal.value;
    RecoveryLast(r.history);
    assert d.history <= r.history && d.history[|d.history| - 1] == r.history[|d.history| - 1];
    hide NoMail, Ledger, Planned, Genuine, Evident;
  }
}
