/** The escrow coordinator (broker/transaction.py), with the coherence of every crash point proved along the way. */
module Coordinator {
  import opened Bytes
  import opened Pokemon
  import opened Journal
  import opened World
  import opened Escrow
  import opened Store

  datatype Outcome =
    | Returned(transaction: nat, gbaMon: Mon, switchMon: Mon, brokerMon: Mon)
    | Failed
    | Died

  /**
   The moments of `execute` that leave no trace but may fail: fault hooks around a trade and after a
   durable state, the trade menu, and the closing of an endpoint.
   */
  datatype Moment =
    | HookBefore(started: State)
    | HookAfter(started: State)
    | HookRecorded(state: State)
    | TradeMenu(started: State)
    | Closing(console: Console)

  class TradeCoordinator {
    const journal: JournalStore
    const fateAt: Moment -> Fate

    constructor (journal: JournalStore, fateAt: Moment -> Fate)
      ensures this.journal == journal && this.fateAt == fateAt
    {
      this.journal, this.fateAt := journal, fateAt;
    }

    /** The run so far is a coherent tale that ends in the present world. */
    ghost predicate Telling(start: View, p: Mon)
      reads journal.env`view, journal.env`past
    {
      && Tale(start, p, journal.sha, journal.env.past)
      && journal.env.past[|journal.env.past| - 1] == journal.env.view
    }

    /** A record is in use. */
    ghost predicate Running(record: JournalRecord, start: View, p: Mon)
      reads journal.env`view, journal.env`past, record
    {
      Telling(start, p) && Live(start, p, journal.sha, journal.env.view, record.Content()) && Prepared(journal.env.view)
    }

    /** The hook and, on the Switch, the trade menu came before every trade. */
    predicate Prepared(v: View)
    {
      forall k | 0 <= k < |v.deals| :: PreparedAt(k)
    }

    predicate PreparedAt(k: nat)
    {
      fateAt(HookBefore(StartedOf(k))) == Fine && (k != 1 ==> fateAt(TradeMenu(StartedOf(k))) == Fine)
    }

    /** One durable transition whose belief has been argued. */
    method Persist(record: JournalRecord, u: Update, ghost start: View, ghost p: Mon) returns (fate: Fate)
      requires Running(record, start, p) && Advance(record.Content(), u).Ok?
      requires var next := Advance(record.Content(), u).value; var v := journal.env.view;
        Believes(next, v.deals, p, journal.sha) && Evident(next, v.artifacts, journal.sha)
      modifies record, journal.env
      ensures Running(record, start, p) && record.Content() == Advance(old(record.Content()), u).value
      ensures fate == journal.env.oracle(old(journal.env.tick)).fate && journal.env.tick == old(journal.env.tick) + 1
      ensures record.state == u.state && record.slot == (if u.slot.Some? then u.slot else old(record.slot))
      ensures journal.env.view == old(journal.env.view).(journal := journal.env.view.journal)
      ensures journal.env.view.journal ==
        if Lands(journal.env.oracle(old(journal.env.tick))) then Some(record.Content())
        else old(journal.env.view.journal)
      ensures fate == Fine ==> journal.env.view.journal == Some(record.Content())
      ensures old(journal.env.past) <= journal.env.past
    {
      hide Live, Tale, Step, Believes, Evident, Advance;
      ghost var r, v, past := record.Content(), journal.env.view, journal.env.past;
      fate := journal.Transition(record, u);
      WriteLive(start, p, journal.sha, v, journal.env.view, r, u);
      Grows(start, p, journal.sha, past, journal.env.view, record.Content());
    }

    /** A transition that only announces or confirms. */
    method Announce(record: JournalRecord, s: State, ghost start: View, ghost p: Mon) returns (fate: Fate)
      requires Running(record, start, p) && journal.env.view.journal == Some(record.Content())
      requires NextState(record.state) == Some(s) && |journal.env.view.deals| == Done(s) == Done(record.state)
      requires s != Complete
      modifies record, journal.env
      ensures Running(record, start, p)
      ensures journal.env.view == old(journal.env.view).(journal := journal.env.view.journal)
      ensures fate == journal.env.oracle(old(journal.env.tick)).fate && journal.env.tick == old(journal.env.tick) + 1
      ensures record.slot == old(record.slot)
      ensures record.state == s && (fate == Fine ==> journal.env.view.journal == Some(record.Content()))
      ensures old(journal.env.past) <= journal.env.past
    {
      PlainLive(start, p, journal.sha, journal.env.view, record.Content(), s);
      hide Live, Tale, Believes, Evident;
      fate := Persist(record, Plain(s), start, p);
    }

    /** Bytes are stored under their digest before any record mentions it. */
    method Keep(record: JournalRecord, part: ArtifactLabel, mon: Mon, ghost start: View, ghost p: Mon)
        returns (fate: Fate)
      requires Running(record, start, p) && (part == ArtifactReturned || !HoldsMail(mon))
      modifies journal.env
      ensures Running(record, start, p)
      ensures journal.env.view == old(journal.env.view).(artifacts := journal.env.view.artifacts)
      ensures fate == journal.env.oracle(old(journal.env.tick)).fate && journal.env.tick == old(journal.env.tick) + 1
      ensures var key := ArtifactKey(record.transaction, part, journal.sha(mon));
        fate == Fine ==> key in journal.env.view.artifacts && journal.env.view.artifacts[key] == mon
      ensures old(journal.env.past) <= journal.env.past
    {
      hide HoldsMail, Live, Tale, Step;
      ghost var r, v, past := record.Content(), journal.env.view, journal.env.past;
      fate := journal.SaveArtifact(record, part, mon);
      ArtifactLive(start, p, journal.sha, v, journal.env.view, r,
        ArtifactKey(record.transaction, part, journal.sha(mon)), mon);
      Grows(start, p, journal.sha, past, journal.env.view, r);
    }

    /** One trade that the durable record announces, of a record the broker holds. */
    method Trade(record: JournalRecord, console: Console, offered: Mon, ghost start: View, ghost p: Mon)
      returns (fate: Fate, report: Report, ghost d: Deal)
      requires Running(record, start, p) && journal.env.view.journal == Some(record.Content())
      requires |journal.env.view.deals| == Done(record.state) < 3
      requires record.state == StartedOf(Done(record.state)) && console == ConsoleOf(Done(record.state))
      requires offered == Latest(journal.env.view.deals, p) && offered in journal.env.view.broker
      requires !HoldsMail(offered) && PreparedAt(|journal.env.view.deals|)
      modifies journal.env
      ensures Running(record, start, p) && journal.env.view.journal == Some(record.Content())
      ensures fate == journal.env.oracle(old(journal.env.tick)).fate && journal.env.tick == old(journal.env.tick) + 1
      ensures report ==
        Told(journal.env.oracle(old(journal.env.tick)), Holding(old(journal.env.view), console), offered)
      ensures report.confirmed && report.offered == offered ==>
        SameHoldings(journal.env.view, Swap(old(journal.env.view), console, offered, report.received))
      ensures journal.env.view.deals == old(journal.env.view.deals) + [d]
      ensures d.console == console && d.offered == offered
      ensures report.confirmed && report.offered == offered ==> d.swapped && d.received == report.received
      ensures journal.env.view.touches == old(journal.env.view.touches)
      ensures old(journal.env.past) <= journal.env.past
    {
      hide HoldsMail, PreparedAt, Live, Tale, Step, Swap, Holding;
      ghost var v, past := journal.env.view, journal.env.past;
      fate, report, d := journal.env.TradeOnce(console, offered);
      DealLive(start, p, journal.sha, v, journal.env.view, d);
      Grows(start, p, journal.sha, past, journal.env.view, record.Content());
    }

    /** The fault hook before a trade, then, on the Switch, the trade menu. */
    function Prelude(s: State, console: Console): Fate
    {
      if fateAt(HookBefore(s)) == Fine && console == Switch then fateAt(TradeMenu(s)) else fateAt(HookBefore(s))
    }

    lemma PreludeFine(k: nat)
      requires k < 3 && Prelude(StartedOf(k), ConsoleOf(k)) == Fine
      ensures PreparedAt(k)
    {}

    /** The exact condition for a trade announced at tick `t`: nothing fails, and the report is as it must be. */
    predicate Passes(t: nat, s: State, console: Console, there: multiset<Mon>, offered: Mon)
    {
      var told := Told(journal.env.oracle(t + 1), there, offered);
      && journal.env.oracle(t).fate == Fine && Prelude(s, console) == Fine
      && journal.env.oracle(t + 1).fate == Fine && fateAt(HookAfter(s)) == Fine
      && told.offered == offered && told.confirmed
    }

    /** The common part of the three trades: durable announcement, trade, and the check of the report. */
    method Exchange(record: JournalRecord, s: State, console: Console, offered: Mon, ghost start: View, ghost p: Mon)
      returns (fate: Fate, report: Report)
      requires Running(record, start, p) && journal.env.view.journal == Some(record.Content())
      requires NextState(record.state) == Some(s) && |journal.env.view.deals| == Done(s) == Done(record.state)
      requires Done(s) < 3
      requires s == StartedOf(Done(s)) && console == ConsoleOf(Done(s))
      requires offered == Latest(journal.env.view.deals, p) && offered in journal.env.view.broker
      requires !HoldsMail(offered)
      modifies record, journal.env
      ensures Running(record, start, p) && record.state == s
      ensures fate == Fine <==>
        Passes(old(journal.env.tick), s, console, Holding(old(journal.env.view), console), offered)
      ensures fate == Fine ==>
        && journal.env.view.journal == Some(record.Content())
        && journal.env.tick == old(journal.env.tick) + 2
        && report ==
             Told(journal.env.oracle(old(journal.env.tick) + 1), Holding(old(journal.env.view), console), offered)
        && SameHoldings(journal.env.view, Swap(old(journal.env.view), console, offered, report.received))
        && journal.env.view.deals == old(journal.env.view.deals) + [Deal(console, offered, true, report.received)]
      ensures old(journal.env.past) <= journal.env.past
      ensures journal.env.view.touches == old(journal.env.view.touches)
    {
      hide Running, Prelude, PreparedAt, Done, NextState, StartedOf, ConsoleOf, Latest, Holding, Swap, SameHoldings;
      hide Told;
      hide JournalRecord.Content, Advance, Believes, Evident, HoldsMail, PartOf;
      NotLast(s);
      ghost var v := journal.env.view;
      report := Report(offered, offered, false, 0, false);
      fate := Announce(record, s, start, p);
      if fate != Fine { return; }
      fate := Prelude(s, console);
      if fate != Fine { return; }
      JournalAside(v, journal.env.view, console, offered);
      PreludeFine(Done(s));
      ghost var d: Deal;
      fate, report, d := Trade(record, console, offered, start, p);
      if fate == Fine {
        fate := fateAt(HookAfter(s));
      }
      if fate == Fine && (report.offered != offered || !report.confirmed) {
        fate := Raised;
      }
    }

    /** The exact condition for a capture begun at tick `t` to become durable and confirmed. */
    predicate Recorded(t: nat, s: State)
    {
      && journal.env.oracle(t).fate == Fine && journal.env.oracle(t + 1).fate == Fine
      && journal.env.oracle(t + 2).fate == Fine && fateAt(HookRecorded(s)) == Fine
    }

    lemma Witnessed(record: JournalRecord, l: Label, mon: Mon, u: Update, start: View, p: Mon)
      requires Running(record, start, p) && Advance(record.Content(), u).Ok?
      requires u.pokemon == map[l := Some(journal.sha(mon))]
      requires var key := ArtifactKey(record.transaction, PartOf(l), journal.sha(mon));
        key in journal.env.view.artifacts && journal.env.view.artifacts[key] == mon
      ensures Evident(Advance(record.Content(), u).value, journal.env.view.artifacts, journal.sha)
    {
      hide Coherent, Believes, Extends, Tale, Evident, Advance;
      CaptureEvident(record.Content(), u, l, mon, journal.env.view.artifacts, journal.sha);
    }

    /** After a confirmed trade: the received record is stored, captured, and its capture confirmed. */
    method Capture(record: JournalRecord, l: Label, mon: Mon, u: Update, s: State, ghost start: View, ghost p: Mon)
      returns (fate: Fate)
      requires Running(record, start, p) && Advance(record.Content(), u).Ok?
      requires u.pokemon == map[l := Some(journal.sha(mon))] && !HoldsMail(mon)
      requires Believes(Advance(record.Content(), u).value, journal.env.view.deals, p, journal.sha)
      requires NextState(u.state) == Some(s) && Done(s) == Done(u.state) == |journal.env.view.deals| && s != Complete
      modifies record, journal.env
      ensures Running(record, start, p) && record.state in {old(record.state), u.state, s}
      ensures fate == Fine <==> Recorded(old(journal.env.tick), s)
      ensures fate == Fine ==>
        && record.state == s && journal.env.view.journal == Some(record.Content())
        && journal.env.tick == old(journal.env.tick) + 3 && (u.slot.Some? ==> record.slot == u.slot)
      ensures journal.env.view.deals == old(journal.env.view.deals)
      ensures journal.env.view.touches == old(journal.env.view.touches)
      ensures SameHoldings(journal.env.view, old(journal.env.view))
      ensures old(journal.env.past) <= journal.env.past
    {
      hide Running, Done, NextState, StartedOf, ConsoleOf, Latest, Holding, Swap, SameHoldings, Told;
      hide JournalRecord.Content, Advance, Believes, Evident, HoldsMail, PartOf;
      ghost var v := journal.env.view;
      fate := Keep(record, PartOf(l), mon, start, p);
      if fate != Fine { HoldersAside(v, journal.env.view); return; }
      Witnessed(record, l, mon, u, start, p);
      fate := Persist(record, u, start, p);
      if fate != Fine { HoldersAside(v, journal.env.view); return; }
      fate := Confirm(record, s, start, p);
      HoldersAside(v, journal.env.view);
    }

    /** The capture is confirmed by a transition of its own, followed by the fault hook. */
    method Confirm(record: JournalRecord, s: State, ghost start: View, ghost p: Mon) returns (fate: Fate)
      requires Running(record, start, p) && journal.env.view.journal == Some(record.Content())
      requires NextState(record.state) == Some(s) && |journal.env.view.deals| == Done(s) == Done(record.state)
      requires s != Complete
      modifies record, journal.env
      ensures Running(record, start, p)
      ensures journal.env.view == old(journal.env.view).(journal := journal.env.view.journal)
      ensures journal.env.tick == old(journal.env.tick) + 1 && record.slot == old(record.slot)
      ensures fate == Fine <==>
        journal.env.oracle(old(journal.env.tick)).fate == Fine && fateAt(HookRecorded(s)) == Fine
      ensures record.state == s && (fate == Fine ==> journal.env.view.journal == Some(record.Content()))
      ensures old(journal.env.past) <= journal.env.past
    {
      hide *;
      fate := Announce(record, s, start, p);
      if fate == Fine {
        fate := fateAt(HookRecorded(s));
      }
    }

    lemma InUse(record: JournalRecord, start: View, p: Mon)
      requires Running(record, start, p)
      ensures Live(start, p, journal.sha, journal.env.view, record.Content()) && record.Content().state == record.state
    {
      hide Live, Tale;
    }

    /** What the endpoint reports for the trade announced at tick `t`. */
    function Answer(t: nat, there: multiset<Mon>, offered: Mon): Report
    {
      Told(journal.env.oracle(t + 1), there, offered)
    }

    predicate Stage1Passes(t: nat, there: multiset<Mon>, placeholder: Mon)
    {
      && Passes(t, SwitchStage1Started, Switch, there, placeholder)
      && !HoldsMail(Answer(t, there, placeholder).received)
      && Recorded(t + 2, PlaceholderOnSwitch)
    }

    predicate Stage2Passes(t: nat, there: multiset<Mon>, b: Mon)
    {
      var answer := Answer(t, there, b);
      && Passes(t, GbaStageStarted, Gba, there, b)
      && 0 <= answer.slot <= 5 && answer.linkClosed && !HoldsMail(answer.received)
      && Recorded(t + 2, BCommittedToGba)
    }

    /** Everything of the third stage but its last write. */
    predicate Stage3Concludes(t: nat, there: multiset<Mon>, a: Mon, placeholder: Mon)
    {
      && Passes(t, SwitchStage2Started, Switch, there, a)
      && journal.env.oracle(t + 2).fate == Fine && journal.env.oracle(t + 3).fate == Fine
      && fateAt(HookRecorded(ACommittedToSwitch)) == Fine
      && Answer(t, there, a).received == placeholder
    }

    /** After the last write: COMPLETE on disk if it landed, else the state before. */
    ghost predicate Written(c: Choice)
      reads journal.env`view
    {
      && journal.env.view.journal.Some?
      && journal.env.view.journal.value.state == (if Lands(c) then Complete else ACommittedToSwitch)
    }

    /** B for the placeholder. */
    method Stage1(record: JournalRecord, placeholder: Mon, ghost start: View) returns (fate: Fate, b: Mon)
      requires Running(record, start, placeholder) && journal.env.view.journal == Some(record.Content())
      requires record.state == Idle && journal.env.view.deals == [] && placeholder in journal.env.view.broker
      requires !HoldsMail(placeholder)
      modifies record, journal.env
      ensures Running(record, start, placeholder) && !Terminal(record.state)
      ensures fate == Fine <==> Stage1Passes(old(journal.env.tick), Holding(old(journal.env.view), Switch), placeholder)
      ensures fate == Fine ==>
        && b == Answer(old(journal.env.tick), Holding(old(journal.env.view), Switch), placeholder).received
        && SameHoldings(journal.env.view, Swap(old(journal.env.view), Switch, placeholder, b))
        && journal.env.tick == old(journal.env.tick) + 5
        && record.state == PlaceholderOnSwitch && journal.env.view.journal == Some(record.Content())
        && journal.env.view.deals == [Deal(Switch, placeholder, true, b)] && b in journal.env.view.broker
        && !HoldsMail(b)
      ensures journal.env.view.touches == old(journal.env.view.touches)
      ensures old(journal.env.past) <= journal.env.past
    {
      hide Running, Done, NextState, StartedOf, ConsoleOf, Latest, Holding, Swap, SameHoldings, Told, HoldsMail;
      hide JournalRecord.Content, Advance, Believes, Evident, PartOf, Passes, Recorded, Live;
      FirstLeg(placeholder);
      ghost var v := journal.env.view;
      var report;
      fate, report := Exchange(record, SwitchStage1Started, Switch, placeholder, start, placeholder);
      b := report.received;
      if fate == Fine && HoldsMail(b) {
        fate := Raised;
      }
      if fate == Fine {
        InUse(record, start, placeholder);
        ghost var u := journal.env.view;
        BCaptured(start, placeholder, journal.sha, journal.env.view, record.Content(), b);
        fate := Capture(record, B, b, CaptureB(journal.sha(b)), PlaceholderOnSwitch, start, placeholder);
        SameTransitive(journal.env.view, u, Swap(v, Switch, placeholder, b));
        StillHeld(u, journal.env.view, b);
      }
    }

    /** A for B; here the endpoint must also report a party slot and a closed link. */
    method Stage2(record: JournalRecord, b: Mon, ghost start: View, ghost p: Mon) returns (fate: Fate, a: Mon)
      requires Running(record, start, p) && journal.env.view.journal == Some(record.Content())
      requires record.state == PlaceholderOnSwitch && b in journal.env.view.broker && !HoldsMail(b)
      requires journal.env.view.deals == [Deal(Switch, p, true, b)]
      modifies record, journal.env
      ensures Running(record, start, p) && !Terminal(record.state)
      ensures fate == Fine <==> Stage2Passes(old(journal.env.tick), Holding(old(journal.env.view), Gba), b)
      ensures fate == Fine ==>
        && a == Answer(old(journal.env.tick), Holding(old(journal.env.view), Gba), b).received
        && record.slot == Some(Answer(old(journal.env.tick), Holding(old(journal.env.view), Gba), b).slot)
        && SameHoldings(journal.env.view, Swap(old(journal.env.view), Gba, b, a))
        && journal.env.tick == old(journal.env.tick) + 5
        && record.state == BCommittedToGba && journal.env.view.journal == Some(record.Content())
        && journal.env.view.deals == [Deal(Switch, p, true, b), Deal(Gba, b, true, a)] && a in journal.env.view.broker
        && !HoldsMail(a)
      ensures journal.env.view.touches == old(journal.env.view.touches)
      ensures old(journal.env.past) <= journal.env.past
    {
      hide Running, Done, NextState, StartedOf, ConsoleOf, Latest, Holding, Swap, SameHoldings, Told, HoldsMail;
      hide JournalRecord.Content, Advance, Believes, Evident, PartOf, Passes, Recorded, Live;
      SecondLeg(p, Deal(Switch, p, true, b));
      ghost var t, v := journal.env.tick, journal.env.view;
      var report;
      fate, report := Exchange(record, GbaStageStarted, Gba, b, start, p);
      assert fate == Fine ==> report == Answer(t, Holding(v, Gba), b);
      hide Answer;
      a := report.received;
      if fate == Fine && (!(0 <= report.slot <= 5) || !report.linkClosed || HoldsMail(a)) {
        fate := Raised;
      }
      if fate == Fine {
        InUse(record, start, p);
        ghost var u := journal.env.view;
        ACaptured(start, p, journal.sha, journal.env.view, record.Content(), a, report.slot);
        fate := Capture(record, A, a, CaptureA(journal.sha(a), report.slot), BCommittedToGba, start, p);
        SameTransitive(journal.env.view, u, Swap(v, Gba, b, a));
        StillHeld(u, journal.env.view, a);
      }
    }

    /** P for A; the returned record must be the placeholder, byte for byte. */
    method Stage3(record: JournalRecord, placeholder: Mon, b: Mon, a: Mon, ghost start: View)
      returns (fate: Fate, returned: Mon)
      requires Running(record, start, placeholder) && journal.env.view.journal == Some(record.Content())
      requires record.state == BCommittedToGba && a in journal.env.view.broker && !HoldsMail(a)
      requires journal.env.view.deals == [Deal(Switch, placeholder, true, b), Deal(Gba, b, true, a)]
      modifies record, journal.env
      ensures Running(record, start, placeholder) && record.state != RecoveryRequired
      ensures record.state == Complete <==>
        Stage3Concludes(old(journal.env.tick), Holding(old(journal.env.view), Switch), a, placeholder)
      ensures record.state == Complete ==>
        && fate == journal.env.oracle(old(journal.env.tick) + 4).fate
        && Written(journal.env.oracle(old(journal.env.tick) + 4))
      ensures fate == Fine ==> record.state == Complete
      ensures fate == Fine ==>
        && SameHoldings(journal.env.view, Swap(old(journal.env.view), Switch, a, placeholder))
        && journal.env.view.journal == Some(record.Content()) && returned == placeholder
        && Stored(journal.env.view, record.transaction, ArtifactReturned, placeholder)
        && journal.env.view.deals ==
             [Deal(Switch, placeholder, true, b), Deal(Gba, b, true, a), Deal(Switch, a, true, placeholder)]
      ensures journal.env.view.touches == old(journal.env.view.touches)
      ensures old(journal.env.past) <= journal.env.past
    {
      hide Running, Done, NextState, StartedOf, ConsoleOf, Latest, Holding, Swap, SameHoldings, Told, HoldsMail;
      hide JournalRecord.Content, Advance, Believes, Evident, PartOf, Passes, Recorded, Live;
      ThirdLeg(placeholder, journal.env.view.deals);
      ghost var v := journal.env.view;
      var report;
      fate, report := Exchange(record, SwitchStage2Started, Switch, a, start, placeholder);
      returned := report.received;
      ghost var u := journal.env.view;
      if fate == Fine {
        fate := Conclude(record, placeholder, returned, start);
        HoldersAside(u, journal.env.view);
        SameTransitive(journal.env.view, u, Swap(v, Switch, a, returned));
      }
    }

    /** The candidate is recorded as returned, then compared, and only then the exchange is complete. */
    method Conclude(record: JournalRecord, placeholder: Mon, returned: Mon, ghost start: View) returns (fate: Fate)
      requires Running(record, start, placeholder) && record.state == SwitchStage2Started
      requires var deals := journal.env.view.deals; |deals| == 3 && deals[2].swapped && deals[2].received == returned
      modifies record, journal.env
      ensures Running(record, start, placeholder) && record.state != RecoveryRequired
      ensures record.state == Complete <==>
        && journal.env.oracle(old(journal.env.tick)).fate == Fine
        && journal.env.oracle(old(journal.env.tick) + 1).fate == Fine
        && fateAt(HookRecorded(ACommittedToSwitch)) == Fine && returned == placeholder
      ensures record.state == Complete ==>
        && fate == journal.env.oracle(old(journal.env.tick) + 2).fate
        && Written(journal.env.oracle(old(journal.env.tick) + 2))
      ensures fate == Fine ==> record.state == Complete && journal.env.view.journal == Some(record.Content())
      ensures fate == Fine ==> Stored(journal.env.view, record.transaction, ArtifactReturned, placeholder)
      ensures journal.env.view ==
        old(journal.env.view).(journal := journal.env.view.journal, artifacts := journal.env.view.artifacts)
      ensures old(journal.env.past) <= journal.env.past
    {
      hide Running, Done, NextState, StartedOf, ConsoleOf, Latest, Holding, Swap, SameHoldings, Told, HoldsMail;
      hide JournalRecord.Content, Advance, Believes, Evident, PartOf, Passes, Recorded, Live, Lands, Stored;
      fate := Return(record, returned, start, placeholder);
      if fate != Fine { return; }
      fate := fateAt(HookRecorded(ACommittedToSwitch));
      if fate != Fine { return; }
      if returned != placeholder {
        return Raised;
      }
      InUse(record, start, placeholder);
      Finished(start, placeholder, journal.sha, journal.env.view, record.Content());
      RunningTells(record, start, placeholder);
      ghost var u := journal.env.view;
      fate := Persist(record, FINISH, start, placeholder);
      RunningTells(record, start, placeholder);
      StillStored(u, journal.env.view, record.transaction, ArtifactReturned, placeholder);
    }

    /** The candidate placeholder is stored, and A is recorded on the Switch, before the comparison. */
    method Return(record: JournalRecord, returned: Mon, ghost start: View, ghost p: Mon) returns (fate: Fate)
      requires Running(record, start, p) && record.state == SwitchStage2Started
      requires var deals := journal.env.view.deals; |deals| == 3 && deals[2].swapped
      modifies record, journal.env
      ensures Running(record, start, p) && record.state in {SwitchStage2Started, ACommittedToSwitch}
      ensures fate == Fine <==>
        && journal.env.oracle(old(journal.env.tick)).fate == Fine
        && journal.env.oracle(old(journal.env.tick) + 1).fate == Fine
      ensures fate == Fine ==> journal.env.tick == old(journal.env.tick) + 2
      ensures journal.env.view ==
        old(journal.env.view).(journal := journal.env.view.journal, artifacts := journal.env.view.artifacts)
      ensures fate == Fine ==> record.state == ACommittedToSwitch && journal.env.view.journal == Some(record.Content())
      ensures fate == Fine ==> Stored(journal.env.view, record.transaction, ArtifactReturned, returned)
      ensures journal.env.view.deals == old(journal.env.view.deals)
      ensures journal.env.view.touches == old(journal.env.view.touches)
      ensures old(journal.env.past) <= journal.env.past
    {
      hide *;
      fate := Keep(record, ArtifactReturned, returned, start, p);
      if fate == Fine {
        KeyStored(journal.env.view, ArtifactKey(record.transaction, ArtifactReturned, journal.sha(returned)), returned);
        ghost var u := journal.env.view;
        InUse(record, start, p);
        ACommitted(start, p, journal.sha, journal.env.view, record.Content());
        fate := Persist(record, COMMIT_A, start, p);
        StillStored(u, journal.env.view, record.transaction, ArtifactReturned, returned);
      }
    }

    /**
     A failed run is always marked in memory, and on disk exactly when the write lands; a failed mark is
     swallowed. A record in COMPLETE is not marked at all.
     */
    method MarkRecovery(record: JournalRecord, ghost start: View, ghost p: Mon) returns (fate: Fate)
      requires Running(record, start, p)
      modifies record, journal.env
      ensures Running(record, start, p)
      ensures journal.env.view == old(journal.env.view).(journal := journal.env.view.journal)
      ensures Terminal(old(record.state)) ==>
        && fate == Fine && record.Content() == old(record.Content()) && record.state == old(record.state)
        && journal.env.view == old(journal.env.view) && journal.env.tick == old(journal.env.tick)
      ensures !Terminal(old(record.state)) ==>
        && record.state == RecoveryRequired && journal.env.tick == old(journal.env.tick) + 1
        && fate == (if journal.env.oracle(old(journal.env.tick)).fate == Killed then Killed else Fine)
        && journal.env.view.journal ==
             (if Lands(journal.env.oracle(old(journal.env.tick))) then Some(record.Content())
              else old(journal.env.view.journal))
      ensures old(journal.env.past) <= journal.env.past
    {
      hide *;
      if Terminal(record.state) {
        return Fine;
      }
      InUse(record, start, p);
      Recovers(start, p, journal.sha, journal.env.view, record.Content());
      fate := Persist(record, RECOVER, start, p);
      fate := if fate == Raised then Fine else fate;
    }

    method Open(record: JournalRecord, ghost start: View, ghost p: Mon) returns (fate: Fate)
      requires Running(record, start, p)
      modifies journal.env
      ensures Running(record, start, p)
      ensures journal.env.view == old(journal.env.view).(touches := old(journal.env.view.touches) + 1)
      ensures fate == journal.env.oracle(old(journal.env.tick)).fate && journal.env.tick == old(journal.env.tick) + 1
      ensures old(journal.env.past) <= journal.env.past
    {
      hide Live, Tale, Step;
      ghost var v, past := journal.env.view, journal.env.past;
      fate := journal.env.Touch();
      QuietLive(start, p, journal.sha, v, journal.env.view, record.Content());
      Grows(start, p, journal.sha, past, journal.env.view, record.Content());
    }

    /** Any journal left on disk ends the run before anything else happens. */
    method Require(ghost start: View, ghost p: Mon) returns (fate: Fate)
      requires Telling(start, p)
      modifies journal.env
      ensures Telling(start, p)
      ensures journal.env.view == old(journal.env.view).(journal := journal.env.view.journal)
      ensures old(journal.env.view.journal) == None ==>
        journal.env.view == old(journal.env.view) && journal.env.tick == old(journal.env.tick)
      ensures var t := old(journal.env.tick);
        journal.env.view == AfterLoad(old(journal.env.view), journal.env.oracle(t), journal.env.oracle(t + 1))
      ensures fate == Fine <==> old(journal.env.view.journal) == None
      ensures old(journal.env.view.journal) == None <==> journal.env.view.journal == None
      ensures old(journal.env.past) <= journal.env.past
    {
      hide Tale, Step, Live, Coherent, Advance, AfterLoad;
      ghost var t, v, past := journal.env.tick, journal.env.view, journal.env.past;
      fate := journal.RequireNewTransaction();
      LoadedIs(v, journal.env.oracle(t), journal.env.oracle(t + 1));
      if journal.env.past != past {
        TaleLive(start, p, journal.sha, past);
        MarkedLive(start, p, journal.sha, v, journal.env.view);
        Grows(start, p, journal.sha, past, journal.env.view, journal.env.view.journal.value);
      }
    }

    /** The first durable record, with its placeholder artifact. */
    method Begin(placeholder: Mon, ghost start: View) returns (fate: Fate, record: JournalRecord?)
      requires Telling(start, placeholder) && journal.env.view.journal == None && !HoldsMail(placeholder)
      modifies journal.env
      ensures Telling(start, placeholder)
      ensures journal.env.view ==
        old(journal.env.view).(journal := journal.env.view.journal, artifacts := journal.env.view.artifacts)
      ensures fate == Fine <==>
        && journal.env.oracle(old(journal.env.tick) + 1).fate == Fine
        && journal.env.oracle(old(journal.env.tick) + 2).fate == Fine
      ensures fate == Fine ==> journal.env.tick == old(journal.env.tick) + 3
      ensures fate == Fine ==>
        && record != null && fresh(record) && Running(record, start, placeholder)
        && record.state == Idle && journal.env.view.journal == Some(record.Content())
      ensures journal.env.view.deals == []
      ensures old(journal.env.past) <= journal.env.past
    {
      hide HoldsMail, Tale, Step, Live, Coherent, Advance;
      ghost var v, past := journal.env.view, journal.env.past;
      TaleQuiet(start, placeholder, journal.sha, past);
      ghost var kept, t;
      fate, record, kept, t := journal.Create(placeholder);
      KeptTale(start, placeholder, journal.sha, past, kept, t);
      if journal.env.past != past + [kept] {
        CreatedTale(start, placeholder, journal.sha, past + [kept], journal.env.view, t);
      }
      if fate == Fine {
        CreatedTale(start, placeholder, journal.sha, past + [kept], journal.env.view, t);
      }
    }

    /** The exact condition for the guarded part, begun at tick `t`, to reach its last write. */
    predicate Concludes(t: nat, v: View, p: Mon)
    {
      var b := Answer(t + 2, Holding(v, Switch), p).received;
      var v' := Swap(v, Switch, p, b);
      var a := Answer(t + 7, Holding(v', Gba), b).received;
      var v'' := Swap(v', Gba, b, a);
      && journal.env.oracle(t).fate == Fine && journal.env.oracle(t + 1).fate == Fine
      && Stage1Passes(t + 2, Holding(v, Switch), p)
      && Stage2Passes(t + 7, Holding(v', Gba), b)
      && Stage3Concludes(t + 12, Holding(v'', Switch), a, p)
    }

    /** The same from what the stages left in fact. */
    lemma ConcludesNow(t: nat, v: View, p: Mon, b: Mon, v': View, a: Mon, v'': View)
      requires b == Answer(t + 2, Holding(v, Switch), p).received && SameHoldings(v', Swap(v, Switch, p, b))
      requires a == Answer(t + 7, Holding(v', Gba), b).received && SameHoldings(v'', Swap(v', Gba, b, a))
      requires journal.env.oracle(t).fate == Fine && journal.env.oracle(t + 1).fate == Fine
      requires Stage1Passes(t + 2, Holding(v, Switch), p) && Stage2Passes(t + 7, Holding(v', Gba), b)
      ensures Concludes(t, v, p) <==> Stage3Concludes(t + 12, Holding(v'', Switch), a, p)
    {
      hide Stage1Passes, Stage2Passes, Stage3Concludes, Answer, Swap;
      SwapHoldings(v', Swap(v, Switch, p, b), Gba, b, a);
    }

    lemma ConcludesNeeds(t: nat, v: View, p: Mon)
      requires Concludes(t, v, p)
      ensures journal.env.oracle(t).fate == Fine && journal.env.oracle(t + 1).fate == Fine
      ensures Stage1Passes(t + 2, Holding(v, Switch), p)
    {
      hide Stage1Passes, Stage2Passes, Stage3Concludes, Answer, Swap, Holding;
    }

    lemma ConcludesGba(t: nat, v: View, p: Mon, b: Mon, v': View)
      requires b == Answer(t + 2, Holding(v, Switch), p).received && SameHoldings(v', Swap(v, Switch, p, b))
      ensures Concludes(t, v, p) ==> Stage2Passes(t + 7, Holding(v', Gba), b)
    {
      hide Stage1Passes, Stage2Passes, Stage3Concludes, Answer, Swap;
    }

    /** The guarded part of `execute`: both endpoints, then the three stages. */
    method Attempt(record: JournalRecord, placeholder: Mon, ghost start: View)
      returns (fate: Fate, b: Mon, a: Mon, returned: Mon, switchOpen: bool, gbaOpen: bool)
      requires Running(record, start, placeholder) && journal.env.view.journal == Some(record.Content())
      requires record.state == Idle && journal.env.view.deals == [] && placeholder in journal.env.view.broker
      requires !HoldsMail(placeholder)
      modifies record, journal.env
      ensures Running(record, start, placeholder) && record.state != RecoveryRequired
      ensures record.state == Complete <==> Concludes(old(journal.env.tick), old(journal.env.view), placeholder)
      ensures record.state == Complete ==>
        && switchOpen && gbaOpen && fate == journal.env.oracle(old(journal.env.tick) + 16).fate
        && Written(journal.env.oracle(old(journal.env.tick) + 16))
      ensures fate == Fine ==>
        && record.state == Complete && journal.env.view.journal == Some(record.Content()) && returned == placeholder
        && Stored(journal.env.view, record.transaction, ArtifactReturned, placeholder)
        && journal.env.view.deals ==
             [Deal(Switch, placeholder, true, b), Deal(Gba, b, true, a), Deal(Switch, a, true, placeholder)]
      ensures old(journal.env.past) <= journal.env.past
    {
      hide *;
      ghost var t, v := journal.env.tick, journal.env.view;
      if Concludes(t, v, placeholder) {
        ConcludesNeeds(t, v, placeholder);
      }
      b, a, returned, switchOpen, gbaOpen := placeholder, placeholder, placeholder, false, false;
      fate := Open(record, start, placeholder);
      if fate != Fine { return; }
      switchOpen := true;
      fate := Open(record, start, placeholder);
      if fate != Fine { return; }
      gbaOpen := true;
      ghost var u := journal.env.view;
      TouchesAside(v, u);
      fate, b := Stage1(record, placeholder, start);
      NotTerminal(record.state);
      if fate != Fine { return; }
      fate, a, returned := LastStages(record, placeholder, b, start, t, v);
    }

    /** From the captured B to the returned placeholder. */
    method LastStages(record: JournalRecord, placeholder: Mon, b: Mon, ghost start: View, ghost t: nat, ghost v: View)
      returns (fate: Fate, a: Mon, returned: Mon)
      requires Running(record, start, placeholder) && journal.env.view.journal == Some(record.Content())
      requires record.state == PlaceholderOnSwitch && b in journal.env.view.broker && !HoldsMail(b)
      requires journal.env.view.deals == [Deal(Switch, placeholder, true, b)]
      requires b == Answer(t + 2, Holding(v, Switch), placeholder).received
      requires SameHoldings(journal.env.view, Swap(v, Switch, placeholder, b)) && journal.env.tick == t + 7
      requires journal.env.oracle(t).fate == Fine && journal.env.oracle(t + 1).fate == Fine
      requires Stage1Passes(t + 2, Holding(v, Switch), placeholder)
      modifies record, journal.env
      ensures Running(record, start, placeholder) && record.state != RecoveryRequired
      ensures record.state == Complete <==> Concludes(t, v, placeholder)
      ensures record.state == Complete ==>
        fate == journal.env.oracle(t + 16).fate && Written(journal.env.oracle(t + 16))
      ensures fate == Fine ==>
        && record.state == Complete && journal.env.view.journal == Some(record.Content()) && returned == placeholder
        && Stored(journal.env.view, record.transaction, ArtifactReturned, placeholder)
        && journal.env.view.deals ==
             [Deal(Switch, placeholder, true, b), Deal(Gba, b, true, a), Deal(Switch, a, true, placeholder)]
      ensures old(journal.env.past) <= journal.env.past
    {
      hide *;
      ghost var v' := journal.env.view;
      ConcludesGba(t, v, placeholder, b, v');
      returned := placeholder;
      fate, a := Stage2(record, b, start, placeholder);
      NotTerminal(record.state);
      if fate != Fine { return; }
      ghost var v'' := journal.env.view;
      ConcludesNow(t, v, placeholder, b, v', a, v'');
      fate, returned := Stage3(record, placeholder, b, a, start);
    }

    /** A close may raise, which is swallowed, but the process must survive it. */
    predicate ClosesAlive(switchOpen: bool, gbaOpen: bool)
    {
      (gbaOpen ==> fateAt(Closing(Gba)) != Killed) && (switchOpen ==> fateAt(Closing(Switch)) != Killed)
    }

    /** The handlers of `execute`: recovery after an exception, then the open endpoints; nothing after a kill. */
    method Close(fate: Fate, record: JournalRecord, switchOpen: bool, gbaOpen: bool, ghost start: View, ghost p: Mon)
      returns (ending: Fate)
      requires Running(record, start, p)
      modifies record, journal.env
      ensures Running(record, start, p)
      ensures ending != Raised
      ensures ending == Fine <==>
        && fate != Killed && ClosesAlive(switchOpen, gbaOpen)
        && (fate == Raised && !Terminal(old(record.state)) ==> journal.env.oracle(old(journal.env.tick)).fate != Killed)
      ensures fate != Raised || Terminal(old(record.state)) ==>
        && record.Content() == old(record.Content()) && record.state == old(record.state)
        && journal.env.view == old(journal.env.view)
      ensures fate == Raised && !Terminal(old(record.state)) ==>
        && record.state == RecoveryRequired && journal.env.tick == old(journal.env.tick) + 1
        && journal.env.view.journal ==
             (if Lands(journal.env.oracle(old(journal.env.tick))) then Some(record.Content())
              else old(journal.env.view.journal))
      ensures old(journal.env.past) <= journal.env.past
    {
      hide Running, Terminal, JournalRecord.Content, Lands;
      ending := fate;
      if fate == Raised {
        ending := MarkRecovery(record, start, p);
      }
      if ending == Fine && gbaOpen && fateAt(Closing(Gba)) == Killed {
        ending := Killed;
      }
      if ending == Fine && switchOpen && fateAt(Closing(Switch)) == Killed {
        ending := Killed;
      }
    }

    /**
     The try statement of `execute` with its handlers. A failed run ends marked for recovery in memory
     if and only if it had not got as far as COMPLETE, and on disk if and only if, besides, the write
     of the mark landed.
     */
    method Finish(record: JournalRecord, placeholder: Mon, ghost start: View) returns (outcome: Outcome)
      requires Running(record, start, placeholder) && journal.env.view.journal == Some(record.Content())
      requires record.state == Idle && journal.env.view.deals == [] && placeholder in journal.env.view.broker
      requires !HoldsMail(placeholder)
      modifies record, journal.env
      ensures Prepared(journal.env.view)
      ensures Telling(start, placeholder) && old(journal.env.past) <= journal.env.past
      ensures var t, v := old(journal.env.tick), old(journal.env.view);
        outcome.Returned? <==>
          Concludes(t, v, placeholder) && journal.env.oracle(t + 16).fate == Fine && ClosesAlive(true, true)
      ensures outcome.Returned? ==> IsReturn(journal.env.view, outcome, placeholder)
      ensures Concludes(old(journal.env.tick), old(journal.env.view), placeholder) ==>
        && record.state == Complete && Written(journal.env.oracle(old(journal.env.tick) + 16))
        && (journal.env.oracle(old(journal.env.tick) + 16).fate == Raised && ClosesAlive(true, true) ==>
              outcome == Failed)
      ensures outcome == Failed && !Concludes(old(journal.env.tick), old(journal.env.view), placeholder) ==>
        record.state == RecoveryRequired && Marked()
    {
      hide *;
      var fate, b, a, returned, switchOpen, gbaOpen := Attempt(record, placeholder, start);
      RunningTells(record, start, placeholder);
      NotTerminal(record.state);
      Unmarked(record, start, placeholder);
      ghost var v, r, d := journal.env.view, record.Content(), journal.env.view.journal;
      var ending := Close(fate, record, switchOpen, gbaOpen, start, placeholder);
      RunningTells(record, start, placeholder);
      if ending != Fine {
        return Died;
      }
      if fate != Fine {
        MarkedIf(record, start, placeholder, d);
        return Failed;
      }
      outcome := Returned(record.transaction, b, a, returned);
      ReturnFacts(v, r, outcome, placeholder);
    }

    /** The recovery mark, written at the last tick, is on disk if and only if its write landed. */
    ghost predicate Marked()
      reads journal.env`view, journal.env`tick
    {
      && journal.env.tick > 0 && journal.env.view.journal.Some?
      && (journal.env.view.journal.value.state == RecoveryRequired <==> Lands(journal.env.oracle(journal.env.tick - 1)))
    }

    lemma MarkedIf(record: JournalRecord, start: View, p: Mon, d: Option<Record>)
      requires Running(record, start, p) && d.Some? && d.value.state != RecoveryRequired
      requires record.state == RecoveryRequired ==>
        && journal.env.tick > 0
        && journal.env.view.journal ==
          (if Lands(journal.env.oracle(journal.env.tick - 1)) then Some(record.Content()) else d)
      ensures record.state == RecoveryRequired ==> Marked()
    {
      hide Lands, Telling, Live;
    }

    /** No durable mark precedes the one in memory. */
    lemma Unmarked(record: JournalRecord, start: View, p: Mon)
      requires Running(record, start, p) && record.state != RecoveryRequired
      ensures journal.env.view.journal.Some? && journal.env.view.journal.value.state != RecoveryRequired
    {
      hide Tale, Live;
      UnmarkedDisk(start, p, journal.sha, journal.env.view, record.Content());
    }

    /** The exact condition for a first run, begun at tick `t` with these holdings, to reach its last write. */
    predicate ReachesEnd(t: nat, v: View, p: Mon)
    {
      && !HoldsMail(p)
      && journal.env.oracle(t + 1).fate == Fine && journal.env.oracle(t + 2).fate == Fine
      && Concludes(t + 3, v, p)
    }

    /** Every moment without a trace goes well: hooks before, after and between the trades, and both menus. */
    predicate SmoothMoments()
    {
      && (forall s | s in {SwitchStage1Started, GbaStageStarted, SwitchStage2Started} ::
            fateAt(HookBefore(s)) == Fine && fateAt(HookAfter(s)) == Fine)
      && fateAt(TradeMenu(SwitchStage1Started)) == Fine && fateAt(TradeMenu(SwitchStage2Started)) == Fine
      && (forall s | s in {PlaceholderOnSwitch, BCommittedToGba, ACommittedToSwitch} :: fateAt(HookRecorded(s)) == Fine)
    }

    /** The 18 effects before the last write: two of creation, two openings, five, five and four of the stages. */
    predicate SmoothEffects(t: nat)
    {
      forall k | t < k <= t + 18 :: journal.env.oracle(k).fate == Fine
    }

    /**
     The same condition without the stages: all effects and moments go well, the three reports confirm
     real swaps of what was offered, slot and link of the GBA are as they must be, no record on the way
     holds mail, and what comes back is the placeholder.
     */
    lemma ReachesEndIff(t: nat, v: View, p: Mon)
      ensures var first, second := journal.env.oracle(t + 6), journal.env.oracle(t + 11);
        var third := journal.env.oracle(t + 16);
        var b, a := first.report.received, second.report.received;
        ReachesEnd(t, v, p) <==>
          && SmoothEffects(t) && SmoothMoments()
          && ConfirmsSwap(first, v.switch, p) && ConfirmsSwap(second, v.gba, b)
          && ConfirmsSwap(third, v.switch - multiset{b} + multiset{p}, a)
          && 0 <= second.report.slot <= 5 && second.report.linkClosed
          && !HoldsMail(p) && !HoldsMail(b) && !HoldsMail(a) && third.report.received == p
    {
      hide HoldsMail, ConfirmsSwap, Told;
      var first, second, third := journal.env.oracle(t + 6), journal.env.oracle(t + 11), journal.env.oracle(t + 16);
      var b, a := first.report.received, second.report.received;
      ToldIs(first, v.switch, p);
      ToldIs(second, v.gba, b);
      ToldIs(third, v.switch - multiset{b} + multiset{p}, a);
      EffectsIff(t);
      MomentsIff();
      hide SmoothEffects, SmoothMoments;
    }

    lemma EffectsIff(t: nat)
      ensures SmoothEffects(t) <==>
        && journal.env.oracle(t + 1).fate == Fine && journal.env.oracle(t + 2).fate == Fine
        && journal.env.oracle(t + 3).fate == Fine && journal.env.oracle(t + 4).fate == Fine
        && journal.env.oracle(t + 5).fate == Fine && journal.env.oracle(t + 6).fate == Fine
        && journal.env.oracle(t + 7).fate == Fine && journal.env.oracle(t + 8).fate == Fine
        && journal.env.oracle(t + 9).fate == Fine && journal.env.oracle(t + 10).fate == Fine
        && journal.env.oracle(t + 11).fate == Fine && journal.env.oracle(t + 12).fate == Fine
        && journal.env.oracle(t + 13).fate == Fine && journal.env.oracle(t + 14).fate == Fine
        && journal.env.oracle(t + 15).fate == Fine && journal.env.oracle(t + 16).fate == Fine
        && journal.env.oracle(t + 17).fate == Fine && journal.env.oracle(t + 18).fate == Fine
    {}

    lemma MomentsIff()
      ensures SmoothMoments() <==>
        && Prelude(SwitchStage1Started, Switch) == Fine && fateAt(HookAfter(SwitchStage1Started)) == Fine
        && Prelude(GbaStageStarted, Gba) == Fine && fateAt(HookAfter(GbaStageStarted)) == Fine
        && Prelude(SwitchStage2Started, Switch) == Fine && fateAt(HookAfter(SwitchStage2Started)) == Fine
        && fateAt(HookRecorded(PlaceholderOnSwitch)) == Fine && fateAt(HookRecorded(BCommittedToGba)) == Fine
        && fateAt(HookRecorded(ACommittedToSwitch)) == Fine
    {}

    lemma EndAside(t: nat, v: View, w: View, p: Mon)
      requires w == v.(journal := w.journal, artifacts := w.artifacts)
      ensures Concludes(t, v, p) <==> Concludes(t, w, p)
    {
      hide Stage1Passes, Stage2Passes, Stage3Concludes, Answer;
    }

    /**
     When nothing fails before the last write and the consoles swap and confirm what they did, the
     exchange reaches that write: the broker adds no failure of its own.
     */
    lemma FairWeather(t: nat, v: View, p: Mon, b: Mon, a: Mon)
      requires (forall k | 0 <= k < t + 19 :: journal.env.oracle(k).fate == Fine) && (forall m :: fateAt(m) == Fine)
      requires Confirms(journal.env.oracle(t + 6), p, b)
      requires Confirms(journal.env.oracle(t + 11), b, a)
      requires Confirms(journal.env.oracle(t + 16), a, p)
      requires b in v.switch && a in v.gba && !HoldsMail(p) && !HoldsMail(b) && !HoldsMail(a)
      ensures ReachesEnd(t, v, p)
    {
      hide HoldsMail;
      var v' := Swap(v, Switch, p, b);
      var v'' := Swap(v', Gba, b, a);
      assert v'.gba == v.gba && p in v''.switch;
      assert Answer(t + 5, Holding(v, Switch), p).received == b;
      assert Answer(t + 10, Holding(v', Gba), b).received == a;
      hide Swap;
      assert Stage1Passes(t + 5, Holding(v, Switch), p);
      assert Stage2Passes(t + 10, Holding(v', Gba), b);
      assert Stage3Concludes(t + 15, Holding(v'', Switch), a, p);
    }

    /**
     One run. `p0` is the placeholder of the run the journal tells of so far, `p` the one it tells of
     afterwards. Only a first run touches a console; it returns only after the whole exchange.
     */
    method Execute(placeholder: Mon, ghost start: View, ghost p0: Mon) returns (outcome: Outcome, ghost p: Mon)
      requires Telling(start, p0)
      requires journal.env.view.journal == None ==> placeholder in journal.env.view.broker
      modifies journal.env
      ensures Telling(start, p) && old(journal.env.past) <= journal.env.past
      ensures p == p0 || (p == placeholder && old(journal.env.view.journal) == None)
      ensures HoldsMail(placeholder) ==>
        outcome == Failed && journal.env.view == old(journal.env.view) && journal.env.past == old(journal.env.past)
      ensures old(journal.env.view.journal).Some? ==>
        !outcome.Returned? && IsFrozen(old(journal.env.view), journal.env.view)
      ensures var t, v := old(journal.env.tick), old(journal.env.view);
        outcome.Returned? <==>
          && v.journal == None && ReachesEnd(t, v, placeholder)
          && journal.env.oracle(t + 19).fate == Fine && ClosesAlive(true, true)
      ensures outcome.Returned? ==> p == placeholder && IsReturn(journal.env.view, outcome, placeholder)
      ensures outcome.Returned? ==> !HoldsMail(outcome.gbaMon) && !HoldsMail(outcome.switchMon)
      // An unfinished journal that can be loaded is marked exactly when that write lands.
      ensures !HoldsMail(placeholder) && old(journal.env.view.journal).Some? ==>
        var t := old(journal.env.tick);
        journal.env.view == AfterLoad(old(journal.env.view), journal.env.oracle(t), journal.env.oracle(t + 1))
      // No trade of this run without its hook and, on the Switch, its menu.
      ensures !HoldsMail(placeholder) && old(journal.env.view.journal) == None ==> Prepared(journal.env.view)
      // A failing last write: COMPLETE or the state before it stays on disk, never a recovery mark.
      ensures var t, v := old(journal.env.tick), old(journal.env.view);
        v.journal == None && ReachesEnd(t, v, placeholder) ==>
          && Written(journal.env.oracle(t + 19))
          && (journal.env.oracle(t + 19).fate == Raised && ClosesAlive(true, true) ==> outcome == Failed)
      // Every other failure after the first record leaves the mark exactly when its write landed.
      ensures var t, v := old(journal.env.tick), old(journal.env.view);
        outcome == Failed && v.journal == None && !HoldsMail(placeholder) && !ReachesEnd(t, v, placeholder) ==>
        journal.env.oracle(t + 1).fate == Fine && journal.env.oracle(t + 2).fate == Fine ==> Marked()
    {
      hide Running, Telling, Concludes, ClosesAlive, Written, Marked, IsReturn, IsFrozen, HoldsMail, AfterLoad;
      hide Prepared;
      p := p0;
      ghost var t, v := journal.env.tick, journal.env.view;
      if HoldsMail(placeholder) {
        FrozenFacts(journal.env.view, journal.env.view);
        return Failed, p;
      }
      var fate := Require(start, p0);
      if fate != Fine {
        FrozenFacts(old(journal.env.view), journal.env.view);
        return if fate == Raised then Failed else Died, p;
      }
      p := placeholder;
      Rebase(start, p0, p);
      var record: JournalRecord?;
      fate, record := Begin(placeholder, start);
      if fate != Fine {
        NoDealsPrepared(journal.env.view);
        return if fate == Raised then Failed else Died, p;
      }
      EndAside(t + 3, v, journal.env.view, placeholder);
      outcome := Finish(record, placeholder, start);
      if outcome.Returned? {
        ReturnedClean(start, p, outcome);
      }
    }

    lemma NoDealsPrepared(v: View)
      requires v.deals == []
      ensures Prepared(v)
    {}

    /** What the broker gives back was offered on the way, so it holds no mail. */
    lemma ReturnedClean(start: View, p: Mon, outcome: Outcome)
      requires Telling(start, p) && outcome.Returned? && IsReturn(journal.env.view, outcome, p)
      ensures !HoldsMail(outcome.gbaMon) && !HoldsMail(outcome.switchMon)
    {
      hide Step, Believes, Evident, Ledger, Planned, Genuine, HoldsMail, Stored;
      var v := journal.env.view;
      assert Coherent(start, p, journal.sha, v);
      assert v.deals[1] in v.deals && v.deals[2] in v.deals;
    }

    lemma RunningTells(record: JournalRecord, start: View, p: Mon)
      requires Running(record, start, p)
      ensures Telling(start, p) && record.Content().transaction == record.transaction
      ensures record.Content().state == record.state && Prepared(journal.env.view)
    {}

    lemma Tells(start: View, p: Mon)
      ensures var past := journal.env.past;
        Telling(start, p) <==> (past != [] && Tale(start, p, journal.sha, past) && past[|past| - 1] == journal.env.view)
    {}

    lemma Rebase(start: View, p: Mon, q: Mon)
      requires Telling(start, p) && journal.env.view.journal == None
      ensures Telling(start, q)
    {
      hide Tale;
      TaleRebase(start, p, q, journal.sha, journal.env.past);
    }
  }

  /** Nothing but the journal may change any more, and it stays. */
  predicate IsFrozen(v: View, w: View)
  {
    v.journal.Some? && w.journal.Some? && w == v.(journal := w.journal)
  }

  lemma FrozenFacts(v: View, w: View)
    requires w == v.(journal := w.journal) && (v.journal.Some? ==> w.journal.Some?)
    ensures v.journal.Some? ==> IsFrozen(v, w)
  {}

  /** What a normal return means: three confirmed trades, durably complete, reported as they were. */
  predicate IsReturn(v: View, outcome: Outcome, placeholder: Mon)
    requires outcome.Returned?
  {
    var b, a := outcome.gbaMon, outcome.switchMon;
    && outcome.brokerMon == placeholder
    && v.deals == [Deal(Switch, placeholder, true, b), Deal(Gba, b, true, a), Deal(Switch, a, true, placeholder)]
    && v.journal.Some? && v.journal.value.state == Complete && v.journal.value.transaction == outcome.transaction
    && Stored(v, outcome.transaction, ArtifactReturned, placeholder)
  }

  /** These bytes are stored as this artifact of the transaction. */
  predicate Stored(v: View, transaction: nat, part: ArtifactLabel, mon: Mon)
  {
    exists key | key in v.artifacts :: key.transaction == transaction && key.part == part && v.artifacts[key] == mon
  }

  lemma KeyStored(v: View, key: ArtifactKey, mon: Mon)
    requires key in v.artifacts && v.artifacts[key] == mon
    ensures Stored(v, key.transaction, key.part, mon)
  {}

  lemma StillStored(v: View, w: View, transaction: nat, part: ArtifactLabel, mon: Mon)
    requires Stored(v, transaction, part, mon) && w == v.(journal := w.journal)
    ensures Stored(w, transaction, part, mon)
  {}

  lemma ReturnFacts(v: View, r: Record, outcome: Outcome, placeholder: Mon)
    requires outcome.Returned? && outcome.brokerMon == placeholder
    requires v.journal == Some(r) && r.state == Complete && r.transaction == outcome.transaction
    requires Stored(v, outcome.transaction, ArtifactReturned, placeholder)
    requires var b, a := outcome.gbaMon, outcome.switchMon;
      v.deals == [Deal(Switch, placeholder, true, b), Deal(Gba, b, true, a), Deal(Switch, a, true, placeholder)]
    ensures IsReturn(v, outcome, placeholder)
  {}

  /** The report confirms the offer, and the console really swapped it for what the report names. */
  predicate ConfirmsSwap(c: Choice, there: multiset<Mon>, offered: Mon)
  {
    && c.report.offered == offered && c.report.confirmed
    && c.takesEffect && c.received in there && c.report.received == c.received
  }

  lemma ToldIs(c: Choice, there: multiset<Mon>, offered: Mon)
    ensures var told := Told(c, there, offered);
      && told.received == c.report.received && told.slot == c.report.slot && told.linkClosed == c.report.linkClosed
      && (told.offered == offered && told.confirmed <==> ConfirmsSwap(c, there, offered))
  {}

  /** The console really swaps `offered` for `received` and reports just that. */
  predicate Confirms(c: Choice, offered: Mon, received: Mon)
  {
    && c.takesEffect && c.received == received
    && c.report.offered == offered && c.report.received == received && c.report.confirmed
    && 0 <= c.report.slot <= 5 && c.report.linkClosed
  }

  lemma Grows(start: View, p: Mon, sha: Mon -> Digest, past: seq<View>, v: View, r: Record)
    requires Tale(start, p, sha, past) && Live(start, p, sha, v, r) && Step(past[|past| - 1], v)
    ensures Tale(start, p, sha, past + [v])
  {
    hide Tale, Step, Coherent, Extends, Believes, Evident;
    TaleGrows(start, p, sha, past, v);
  }

  /** The journal has no part in who holds what. */
  lemma JournalAside(v: View, w: View, c: Console, offered: Mon)
    requires w == v.(journal := w.journal)
    ensures Holding(w, c) == Holding(v, c)
    ensures forall received: Mon, u: View ::
      SameHoldings(u, Swap(w, c, offered, received)) ==> SameHoldings(u, Swap(v, c, offered, received))
  {}

  lemma SameTransitive(u: View, v: View, w: View)
    requires SameHoldings(u, v) && SameHoldings(v, w)
    ensures SameHoldings(u, w)
  {}

  lemma StillHeld(v: View, w: View, m: Mon)
    requires SameHoldings(w, v) && m in v.broker
    ensures m in w.broker
  {}

  /** Opening the endpoints moves nothing. */
  lemma TouchesAside(v: View, w: View)
    requires w == v.(touches := w.touches)
    ensures Holding(w, Switch) == Holding(v, Switch) && Holding(w, Gba) == Holding(v, Gba) && w.broker == v.broker
    ensures forall c: Console, offered: Mon, received: Mon, u: View ::
      SameHoldings(u, Swap(w, c, offered, received)) ==> SameHoldings(u, Swap(v, c, offered, received))
  {}

  lemma HoldersAside(v: View, w: View)
    requires w == v.(journal := w.journal, artifacts := w.artifacts)
    ensures SameHoldings(w, v)
  {}

  lemma NotTerminal(s: State)
    ensures !Terminal(s) <==> s != Complete && s != RecoveryRequired
  {}

  lemma NotLast(s: State)
    requires Done(s) < 3
    ensures s != Complete
  {}

  lemma {:induction false} NoneBefore(start: View, p: Mon, sha: Mon -> Digest, past: seq<View>, i: nat)
    requires Tale(start, p, sha, past) && past[|past| - 1].journal == None && i < |past|
    ensures past[i].journal == None
    decreases |past| - i
  {
    hide Coherent, Extends;
    if i < |past| - 1 {
      NoneBefore(start, p, sha, past, i + 1);
      assert Step(past[i + 1 - 1], past[i + 1]);
    }
  }

  /** As long as no journal is on disk, any placeholder may still be the one of this tale. */
  lemma TaleRebase(start: View, p: Mon, q: Mon, sha: Mon -> Digest, past: seq<View>)
    requires Tale(start, p, sha, past) && past[|past| - 1].journal == None
    ensures Tale(start, q, sha, past)
  {
    hide Step, Believes, Evident;
    forall v | v in past
      ensures Coherent(start, q, sha, v)
    {
      var i :| 0 <= i < |past| && past[i] == v;
      NoneBefore(start, p, sha, past, i);
      assert Coherent(start, p, sha, v);
    }
  }

  lemma TaleLive(start: View, p: Mon, sha: Mon -> Digest, past: seq<View>)
    requires Tale(start, p, sha, past) && past[|past| - 1].journal.Some?
    ensures Live(start, p, sha, past[|past| - 1], past[|past| - 1].journal.value)
  {
    var v := past[|past| - 1];
    assert Coherent(start, p, sha, v);
    ExtendsItself(v.journal.value);
    hide Extends, Believes, Evident, Ledger;
  }

  lemma TaleQuiet(start: View, p: Mon, sha: Mon -> Digest, past: seq<View>)
    requires Tale(start, p, sha, past) && past[|past| - 1].journal == None
    ensures past[|past| - 1].deals == []
  {
    assert Coherent(start, p, sha, past[|past| - 1]);
  }

  /** What a process start leaves of a journal: itself, or one more transition. */
  lemma LoadedIs(v: View, load: Choice, mark: Choice)
    ensures var w := AfterLoad(v, load, mark);
      && w == v.(journal := w.journal) && (v.journal == None <==> w.journal == None)
      && (w == v || (v.journal.Some? && Advance(v.journal.value, RECOVER).Ok?
                     && w == v.(journal := Some(Advance(v.journal.value, RECOVER).value))))
  {
    if v.journal.Some? {
      RecoverMarks(v.journal.value);
    }
  }

  lemma MarkedLive(start: View, p: Mon, sha: Mon -> Digest, v: View, w: View)
    requires v.journal.Some? && Live(start, p, sha, v, v.journal.value)
    requires var marked := Advance(v.journal.value, RECOVER);
      w == v || (marked.Ok? && w == v.(journal := Some(marked.value)))
    ensures w.journal.Some? && Live(start, p, sha, w, w.journal.value) && Step(v, w)
  {
    hide Coherent, Step, Extends, Believes, Evident;
    if w == v {
      QuietLive(start, p, sha, v, w, v.journal.value);
    } else {
      assert !Terminal(v.journal.value.state);
      hide Advance;
      Recovers(start, p, sha, v, v.journal.value);
      WriteLive(start, p, sha, v, w, v.journal.value, RECOVER);
    }
  }

  lemma KeptTale(start: View, p: Mon, sha: Mon -> Digest, past: seq<View>, kept: View, t: nat)
    requires Tale(start, p, sha, past)
    requires !HoldsMail(p)
    requires var v := past[|past| - 1]; var key := ArtifactKey(t, ArtifactP, sha(p));
      kept == v || kept == v.(artifacts := v.artifacts[key := p])
    ensures Tale(start, p, sha, past + [kept])
  {
    var v := past[|past| - 1];
    assert Coherent(start, p, sha, v);
    hide HoldsMail, Coherent, Step, Tale;
    ArtifactCoherent(start, p, sha, v, kept, ArtifactKey(t, ArtifactP, sha(p)), p);
    TaleGrows(start, p, sha, past, kept);
  }

  lemma CreatedTale(start: View, p: Mon, sha: Mon -> Digest, past: seq<View>, w: View, t: nat)
    requires Tale(start, p, sha, past) && past[|past| - 1].journal == None
    requires var v := past[|past| - 1];
      w == v || (ArtifactKey(t, ArtifactP, sha(p)) in v.artifacts && w == v.(journal := Some(NewRecord(t, sha(p)))))
    ensures Tale(start, p, sha, past + [w])
    ensures w.journal.Some? ==> Live(start, p, sha, w, NewRecord(t, sha(p)))
  {
    var v := past[|past| - 1];
    assert Coherent(start, p, sha, v);
    hide Coherent, Step, Tale, Live;
    if w == v {
      QuietCoherent(start, p, sha, v, w);
      TaleGrows(start, p, sha, past, w);
    } else {
      CreatedLive(start, p, sha, v, w, t);
      Grows(start, p, sha, past, w, NewRecord(t, sha(p)));
    }
  }

  lemma FirstLeg(p: Mon)
    ensures NextState(Idle) == Some(SwitchStage1Started) && NextState(SwitchBCaptured) == Some(PlaceholderOnSwitch)
    ensures Done(Idle) == Done(SwitchStage1Started) == 0 && Done(SwitchBCaptured) == Done(PlaceholderOnSwitch) == 1
    ensures StartedOf(0) == SwitchStage1Started && ConsoleOf(0) == Switch && Latest([], p) == p
  {}

  lemma BCaptured(start: View, p: Mon, sha: Mon -> Digest, v: View, r: Record, b: Mon)
    requires Live(start, p, sha, v, r) && r.state == SwitchStage1Started
    requires |v.deals| == 1 && v.deals[0].swapped && v.deals[0].received == b
    ensures var u := CaptureB(sha(b));
      && u.state == SwitchBCaptured && u.pokemon == map[B := Some(sha(b))]
      && Advance(r, u).Ok? && Believes(Advance(r, u).value, v.deals, p, sha)
    ensures b in v.broker
  {
    hide Coherent, Extends, Believes, Evident, Advance;
    AtHand(start, p, sha, v);
    CaptureBBelieves(r, v.deals, p, sha);
  }

  lemma SecondLeg(p: Mon, d: Deal)
    ensures NextState(PlaceholderOnSwitch) == Some(GbaStageStarted) && NextState(GbaACaptured) == Some(BCommittedToGba)
    ensures Done(PlaceholderOnSwitch) == Done(GbaStageStarted) == 1 && Done(GbaACaptured) == Done(BCommittedToGba) == 2
    ensures StartedOf(1) == GbaStageStarted && ConsoleOf(1) == Gba && Latest([d], p) == d.received
  {}

  lemma ThirdLeg(p: Mon, deals: seq<Deal>)
    requires |deals| == 2
    ensures NextState(BCommittedToGba) == Some(SwitchStage2Started)
    ensures Done(BCommittedToGba) == Done(SwitchStage2Started) == 2
    ensures StartedOf(2) == SwitchStage2Started && ConsoleOf(2) == Switch && Latest(deals, p) == deals[1].received
  {}

  lemma ACaptured(start: View, p: Mon, sha: Mon -> Digest, v: View, r: Record, a: Mon, slot: int)
    requires Live(start, p, sha, v, r) && r.state == GbaStageStarted && 0 <= slot <= 5
    requires |v.deals| == 2 && v.deals[1].swapped && v.deals[1].received == a
    ensures var u := CaptureA(sha(a), slot);
      && u.slot == Some(slot) && u.state == GbaACaptured && u.pokemon == map[A := Some(sha(a))]
      && Advance(r, u).Ok? && Believes(Advance(r, u).value, v.deals, p, sha)
    ensures a in v.broker
  {
    hide Coherent, Extends, Believes, Evident, Advance;
    AtHand(start, p, sha, v);
    CaptureABelieves(r, v.deals, p, sha, slot);
  }

  lemma ACommitted(start: View, p: Mon, sha: Mon -> Digest, v: View, r: Record)
    requires Live(start, p, sha, v, r) && r.state == SwitchStage2Started && |v.deals| == 3 && v.deals[2].swapped
    ensures COMMIT_A.state == ACommittedToSwitch && Advance(r, COMMIT_A).Ok?
    ensures Believes(Advance(r, COMMIT_A).value, v.deals, p, sha)
    ensures Evident(Advance(r, COMMIT_A).value, v.artifacts, sha)
  {
    hide Coherent, Extends, Believes, Evident, Advance;
    CommitABelieves(r, v.deals, p, sha);
    PlainEvident(r, COMMIT_A, v.artifacts, sha);
  }

  lemma Finished(start: View, p: Mon, sha: Mon -> Digest, v: View, r: Record)
    requires Live(start, p, sha, v, r) && r.state == ACommittedToSwitch && |v.deals| == 3 && v.deals[2].received == p
    ensures FINISH.state == Complete && Advance(r, FINISH).Ok?
    ensures Believes(Advance(r, FINISH).value, v.deals, p, sha) && Evident(Advance(r, FINISH).value, v.artifacts, sha)
  {
    hide Coherent, Extends, Believes, Evident, Advance;
    FinishBelieves(r, v.deals, p, sha);
    PlainEvident(r, FINISH, v.artifacts, sha);
  }

  lemma Recovers(start: View, p: Mon, sha: Mon -> Digest, v: View, r: Record)
    requires Live(start, p, sha, v, r) && !Terminal(r.state)
    ensures RECOVER.state == RecoveryRequired && Advance(r, RECOVER).Ok?
    ensures Believes(Advance(r, RECOVER).value, v.deals, p, sha) && Evident(Advance(r, RECOVER).value, v.artifacts, sha)
  {
    hide Coherent, Extends, Believes, Evident, Advance;
    RecoverBelieves(r, v.deals, p, sha);
    PlainEvident(r, RECOVER, v.artifacts, sha);
  }

  lemma PlainLive(start: View, p: Mon, sha: Mon -> Digest, v: View, r: Record, s: State)
    requires Live(start, p, sha, v, r) && NextState(r.state) == Some(s)
    requires Done(s) == Done(r.state) && s != Complete && |v.deals| == Done(s)
    ensures Advance(r, Plain(s)).Ok? && Believes(Advance(r, Plain(s)).value, v.deals, p, sha)
    ensures Evident(Advance(r, Plain(s)).value, v.artifacts, sha)
  {
    hide Coherent, Extends, Believes, Evident;
    PlainBelieves(r, s, v.deals, p, sha);
    PlainEvident(r, Plain(s), v.artifacts, sha);
  }

  // ---- Any number of process starts on one journal path

  /** What one process start brings along: its placeholder and the fate of its traceless moments. */
  datatype Launch = Launch(placeholder: Mon, fateAt: Moment -> Fate)

  method Coordinate(env: Environment, sha: Mon -> Digest, fateAt: Moment -> Fate) returns (c: TradeCoordinator)
    ensures c.journal.env == env && c.journal.sha == sha && c.fateAt == fateAt
  {
    var store := new JournalStore(env, sha);
    c := new TradeCoordinator(store, fateAt);
  }

  /** One process start. */
  method Start(env: Environment, sha: Mon -> Digest, launch: Launch, ghost start: View, ghost p0: Mon)
    returns (outcome: Outcome, ghost p: Mon)
    requires env.past != [] && Tale(start, p0, sha, env.past) && env.past[|env.past| - 1] == env.view
    requires launch.placeholder in start.broker
    modifies env
    ensures env.past != [] && Tale(start, p, sha, env.past) && env.past[|env.past| - 1] == env.view
    ensures old(env.past) <= env.past
    ensures old(env.view.journal).Some? ==> !outcome.Returned? && IsFrozen(old(env.view), env.view)
    ensures old(env.view.journal).Some? ==> Found(env.oracle, launch, old(env.view), old(env.tick), env.view)
    ensures outcome.Returned? ==>
      IsReturn(env.view, outcome, launch.placeholder)
      && !HoldsMail(outcome.gbaMon) && !HoldsMail(outcome.switchMon)
  {
    hide *;
    var coordinator := Coordinate(env, sha, launch.fateAt);
    Unmoved(start, p0, sha, env.past);
    coordinator.Tells(start, p0);
    ghost var t, v := env.tick, env.view;
    outcome, p := coordinator.Execute(launch.placeholder, start, p0);
    coordinator.Tells(start, p);
    FoundIs(env.oracle, launch, v, t, env.view);
  }

  /** What a start at tick `t` leaves of a world with a journal; mail ends it before the journal is read. */
  predicate Found(oracle: nat -> Choice, launch: Launch, v: View, t: nat, w: View)
  {
    w == if HoldsMail(launch.placeholder) then v else AfterLoad(v, oracle(t), oracle(t + 1))
  }

  lemma FoundIs(oracle: nat -> Choice, launch: Launch, v: View, t: nat, w: View)
    requires v.journal.Some? && HoldsMail(launch.placeholder) ==> w == v
    requires v.journal.Some? && !HoldsMail(launch.placeholder) ==> w == AfterLoad(v, oracle(t), oracle(t + 1))
    ensures v.journal.Some? ==> Found(oracle, launch, v, t, w)
  {}

  /** Start `i`, at tick `ticks[i]`, did with a journal it found what it had to. */
  ghost predicate Loaded(oracle: nat -> Choice, launches: seq<Launch>, stops: seq<View>, ticks: seq<nat>)
  {
    && |stops| == |ticks| + 1 && |ticks| <= |launches|
    && forall i | 0 <= i < |ticks| && stops[i].journal.Some? ::
         Found(oracle, launches[i], stops[i], ticks[i], stops[i + 1])
  }

  lemma LoadedGrows(oracle: nat -> Choice, launches: seq<Launch>, stops: seq<View>, ticks: seq<nat>, t: nat, w: View)
    requires Loaded(oracle, launches, stops, ticks) && |ticks| < |launches|
    requires var v := stops[|ticks|]; v.journal.Some? ==> Found(oracle, launches[|ticks|], v, t, w)
    ensures Loaded(oracle, launches, stops + [w], ticks + [t])
  {
    hide Found;
  }

  lemma LoadedNone(oracle: nat -> Choice, launches: seq<Launch>, start: View)
    ensures Loaded(oracle, launches, [start], [])
  {}

  /**
   An unfinished journal is marked by the first start that can load and write it: one last entry and an
   error are added, nothing else of it or of the world changes.
   */
  lemma UnfinishedIsMarked(oracle: nat -> Choice, launches: seq<Launch>, stops: seq<View>, ticks: seq<nat>, i: nat)
    requires Loaded(oracle, launches, stops, ticks) && i < |ticks| && stops[i].journal.Some?
    requires !HoldsMail(launches[i].placeholder) && oracle(ticks[i]).fate == Fine && oracle(ticks[i] + 1).fate == Fine
    requires stops[i].journal.value.state != Complete && stops[i].journal.value.state != RecoveryRequired
    ensures var r, w := stops[i].journal.value, stops[i + 1];
      && w == stops[i].(journal := w.journal) && w.journal.Some?
      && w.journal.value.state == RecoveryRequired && w.journal.value.failed
      && w.journal.value.history == r.history + [Entry(r.sequence + 1, RecoveryRequired)]
      && w.journal.value.pokemon == r.pokemon && w.journal.value.locations == r.locations
  {
    hide HoldsMail;
    assert Found(oracle, launches[i], stops[i], ticks[i], stops[i + 1]);
  }

  /** A finished journal is never touched again, and one that cannot be loaded or written stays as it is. */
  lemma {:induction false} FinishedStays(oracle: nat -> Choice, launches: seq<Launch>, stops: seq<View>,
                                         ticks: seq<nat>, i: nat, j: nat)
    requires Loaded(oracle, launches, stops, ticks) && i <= j <= |ticks| && stops[i].journal.Some?
    requires stops[i].journal.value.state == Complete || stops[i].journal.value.state == RecoveryRequired
    ensures stops[j] == stops[i]
    decreases j
  {
    hide HoldsMail;
    if i < j {
      FinishedStays(oracle, launches, stops, ticks, i, j - 1);
      assert Found(oracle, launches[j - 1], stops[j - 1], ticks[j - 1], stops[j - 1 + 1]);
    }
  }

  /** From the first stop with a journal on disk, nothing but the journal changes any more. */
  ghost predicate Frozen(stops: seq<View>)
  {
    forall i, j | 0 <= i < j < |stops| && stops[i].journal.Some? :: IsFrozen(stops[i], stops[j])
  }

  /** `stops[i]` is the world before start `i`; a start that returned found no journal and left a finished exchange. */
  ghost predicate Accounted(launches: seq<Launch>, outcomes: seq<Outcome>, stops: seq<View>)
  {
    && |outcomes| <= |launches| && |stops| == |outcomes| + 1
    && forall i | 0 <= i < |outcomes| && outcomes[i].Returned? ::
         stops[i].journal == None && IsReturn(stops[i + 1], outcomes[i], launches[i].placeholder)
  }

  /**
   Process after process on the same disk and consoles, each killed, failed or finished. The whole
   history is one coherent tale; from the first start that leaves a journal behind, no later start
   moves a record or touches a console; and at most one start returns.
   */
  method Restarts(env: Environment, sha: Mon -> Digest, launches: seq<Launch>)
    returns (outcomes: seq<Outcome>, ghost stops: seq<View>, ghost ticks: seq<nat>, ghost p: Mon)
    requires env.past == [env.view] && env.view.journal == None && env.view.deals == [] && env.view.artifacts == map[]
    requires forall l | l in launches :: l.placeholder in env.view.broker
    modifies env
    ensures env.past != [] && Tale(old(env.view), p, sha, env.past) && env.past[|env.past| - 1] == env.view
    ensures |outcomes| == |launches| && Accounted(launches, outcomes, stops) && Frozen(stops)
    ensures stops[0] == old(env.view) && stops[|launches|] == env.view
    ensures |ticks| == |launches| && Loaded(env.oracle, launches, stops, ticks)
    ensures forall o | o in outcomes && o.Returned? :: !HoldsMail(o.gbaMon) && !HoldsMail(o.switchMon)
  {
    hide *;
    ghost var start := env.view;
    outcomes, stops, ticks, p := [], [env.view], [], ZERO_MON;
    FirstTale(start, p, sha);
    LoadedNone(env.oracle, launches, start);
    FirstStop(launches, start);
    while |outcomes| < |launches|
      invariant env.past != [] && Tale(start, p, sha, env.past) && env.past[|env.past| - 1] == env.view
      invariant |outcomes| <= |launches| && |stops| == |outcomes| + 1
      invariant stops[0] == start && stops[|outcomes|] == env.view
      invariant Accounted(launches, outcomes, stops) && Frozen(stops)
      invariant |ticks| == |outcomes| && Loaded(env.oracle, launches, stops, ticks)
      invariant forall o | o in outcomes && o.Returned? :: !HoldsMail(o.gbaMon) && !HoldsMail(o.switchMon)
      decreases |launches| - |outcomes|
    {
      var outcome;
      ghost var t := env.tick;
      outcome, p := Start(env, sha, launches[|outcomes|], start, p);
      LoadedGrows(env.oracle, launches, stops, ticks, t, env.view);
      ticks := ticks + [t];
      FrozenGrows(stops, env.view);
      AccountedGrows(launches, outcomes, stops, outcome, env.view);
      outcomes, stops := outcomes + [outcome], stops + [env.view];
    }
  }

  lemma FirstStop(launches: seq<Launch>, start: View)
    ensures Accounted(launches, [], [start]) && Frozen([start])
  {}

  lemma FrozenGrows(stops: seq<View>, w: View)
    requires stops != [] && (stops[|stops| - 1].journal.Some? ==> IsFrozen(stops[|stops| - 1], w)) && Frozen(stops)
    ensures Frozen(stops + [w])
  {
    forall i | 0 <= i < |stops| && stops[i].journal.Some?
      ensures IsFrozen(stops[i], w)
    {
      if i < |stops| - 1 {
        assert IsFrozen(stops[i], stops[|stops| - 1]);
      }
    }
    hide IsFrozen;
  }

  lemma AccountedGrows(launches: seq<Launch>, outcomes: seq<Outcome>, stops: seq<View>, outcome: Outcome, w: View)
    requires Accounted(launches, outcomes, stops) && |outcomes| < |launches|
    requires outcome.Returned? ==>
      stops[|outcomes|].journal == None && IsReturn(w, outcome, launches[|outcomes|].placeholder)
    ensures Accounted(launches, outcomes + [outcome], stops + [w])
  {
    hide IsReturn;
  }

  /** No two starts return, and the first that leaves a journal is the last that moves anything. */
  lemma OneReturn(launches: seq<Launch>, outcomes: seq<Outcome>, stops: seq<View>, i: nat, j: nat)
    requires Accounted(launches, outcomes, stops) && Frozen(stops) && i < j < |outcomes| && outcomes[i].Returned?
    ensures !outcomes[j].Returned? && IsFrozen(stops[i + 1], stops[j + 1])
    ensures stops[j + 1].deals == stops[i + 1].deals && stops[j + 1].touches == stops[i + 1].touches
  {
    assert IsFrozen(stops[i + 1], stops[j + 1]);
    if i + 1 < j {
      assert IsFrozen(stops[i + 1], stops[j]);
    }
  }

  lemma FirstTale(start: View, p: Mon, sha: Mon -> Digest)
    requires start.journal == None && start.deals == [] && start.artifacts == map[]
    ensures Tale(start, p, sha, [start])
  {
    assert Coherent(start, p, sha, start);
  }

  /** The environment at tick `k` of a first run in which all goes well until the last write, which raises. */
  function LastWriteRaises(p: Mon, b: Mon, a: Mon, lands: bool, k: nat): Choice
  {
    var offered := if k == 6 then p else if k == 11 then b else a;
    var received := if k == 6 then b else if k == 11 then a else p;
    Choice(if k == 19 then Raised else Fine, k != 19 || lands, received, Report(offered, received, true, 0, true), 0)
  }

  lemma AllConfirmed(p: Mon, b: Mon, a: Mon, lands: bool)
    ensures Confirms(LastWriteRaises(p, b, a, lands, 6), p, b)
    ensures Confirms(LastWriteRaises(p, b, a, lands, 11), b, a)
    ensures Confirms(LastWriteRaises(p, b, a, lands, 16), a, p)
  {}

  /**
   The instance: three confirmed trades, and the write of COMPLETE raises. The run fails, and what it
   leaves on disk is COMPLETE or the state before it, never a recovery mark.
   */
  method LastWriteFails(p: Mon, b: Mon, a: Mon, sha: Mon -> Digest, lands: bool)
    returns (outcome: Outcome, disk: Option<Record>)
    requires !HoldsMail(p) && !HoldsMail(b) && !HoldsMail(a)
    ensures outcome == Failed && disk.Some?
    ensures disk.value.state == if lands then Complete else ACommittedToSwitch
  {
    hide Tale, HoldsMail, TradeCoordinator.Telling, TradeCoordinator.ReachesEnd, TradeCoordinator.Marked;
    hide IsReturn, IsFrozen, Confirms, Told;
    var env := new Environment((k: nat) => LastWriteRaises(p, b, a, lands, k), multiset{a}, multiset{b}, multiset{p});
    var store := new JournalStore(env, sha);
    var coordinator := new TradeCoordinator(store, _ => Fine);
    ghost var start := env.view;
    FirstTale(start, p, sha);
    coordinator.Tells(start, p);
    AllConfirmed(p, b, a, lands);
    coordinator.FairWeather(0, start, p, b, a);
    ghost var q;
    outcome, q := coordinator.Execute(p, start, p);
    disk := env.view.journal;
  }

  /** Without a journal every holding is still what it was at first. */
  lemma Unmoved(start: View, p: Mon, sha: Mon -> Digest, past: seq<View>)
    requires Tale(start, p, sha, past)
    ensures past != [] && var v := past[|past| - 1];
      v.journal == None ==> v.broker == start.broker && v.gba == start.gba && v.switch == start.switch
  {
    assert Coherent(start, p, sha, past[|past| - 1]);
  }
}
