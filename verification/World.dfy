/**
 Everything outside the broker process: the journal file, the artifact files, and the two consoles.
 A fixed but arbitrary `oracle` decides the fate of every effect, so what holds for every oracle
 holds for every run. `past` remembers the world after each effect: these are the crash points.
 */
module World {
  import opened Bytes
  import opened Pokemon
  import opened Journal

  /** An effect completes, raises, or the process dies during it. */
  datatype Fate = Fine | Raised | Killed

  datatype Console = Switch | Gba

  datatype ArtifactLabel = ArtifactA | ArtifactB | ArtifactP | ArtifactReturned

  datatype ArtifactKey = ArtifactKey(transaction: nat, part: ArtifactLabel, digest: Digest)

  /** One call of `trade_once`: what was offered, whether the consoles really swapped, and for what. */
  datatype Deal = Deal(console: Console, offered: Mon, swapped: bool, received: Mon)

  /** What an endpoint reports. Switch results carry neutral slot and link fields. */
  datatype Report = Report(offered: Mon, received: Mon, confirmed: bool, slot: int, linkClosed: bool)

  datatype View = View(
    journal: Option<Record>,
    artifacts: map<ArtifactKey, Mon>,
    gba: multiset<Mon>,
    switch: multiset<Mon>,
    broker: multiset<Mon>,
    deals: seq<Deal>,
    touches: nat)

  /** `takesEffect`: a write or swap happens although the caller sees an exception or dies. */
  datatype Choice = Choice(fate: Fate, takesEffect: bool, received: Mon, report: Report, transaction: nat)

  function Holding(v: View, c: Console): multiset<Mon>
  {
    if c == Switch then v.switch else v.gba
  }

  /** The physical exchange of one record against another. */
  function Swap(v: View, c: Console, offered: Mon, received: Mon): View
  {
    var there := Holding(v, c) - multiset{received} + multiset{offered};
    var here := v.broker - multiset{offered} + multiset{received};
    if c == Switch then v.(switch := there, broker := here) else v.(gba := there, broker := here)
  }

  /** A write takes effect when it succeeds, and perhaps also when it raises or the process dies in it. */
  predicate Lands(c: Choice)
  {
    c.fate == Fine || c.takesEffect
  }

  /** What an endpoint reports: anything, except a false confirmation of the very record offered. */
  function Told(c: Choice, there: multiset<Mon>, offered: Mon): Report
  {
    var honest := c.takesEffect && c.received in there && c.report.received == c.received;
    if c.report.offered == offered && !honest then c.report.(confirmed := false) else c.report
  }

  class Environment {
    const oracle: nat -> Choice
    var tick: nat
    var view: View
    ghost var past: seq<View>

    constructor (oracle: nat -> Choice, gba: multiset<Mon>, switch: multiset<Mon>, broker: multiset<Mon>)
      ensures view == View(None, map[], gba, switch, broker, [], 0) && past == [view]
      ensures tick == 0 && this.oracle == oracle
    {
      this.oracle := oracle;
      tick, view := 0, View(None, map[], gba, switch, broker, [], 0);
      past := [View(None, map[], gba, switch, broker, [], 0)];
    }

    /** The next decision of the environment. */
    method Choose() returns (c: Choice)
      modifies this`tick
      ensures c == oracle(old(tick)) && tick == old(tick) + 1
    {
      c := oracle(tick);
      tick := tick + 1;
    }

    /** An effect without a lasting trace: a read of the journal. */
    method Pause() returns (fate: Fate)
      modifies this`tick
      ensures fate == oracle(old(tick)).fate && tick == old(tick) + 1
    {
      var c := Choose();
      return c.fate;
    }

    /** Opening an endpoint. */
    method Touch() returns (fate: Fate)
      modifies this
      ensures fate == oracle(old(tick)).fate && tick == old(tick) + 1
      ensures view == old(view).(touches := old(view).touches + 1) && past == old(past) + [view]
    {
      var c := Choose();
      view := view.(touches := view.touches + 1);
      past := past + [view];
      return c.fate;
    }

    /** Atomic replacement of the journal file: old or new, whatever the caller is told. */
    method WriteJournal(r: Record) returns (fate: Fate)
      modifies this
      ensures fate == oracle(old(tick)).fate && tick == old(tick) + 1
      ensures view == (if Lands(oracle(old(tick))) then old(view).(journal := Some(r)) else old(view))
      ensures fate == Fine ==> Lands(oracle(old(tick)))
      ensures past == old(past) + [view]
    {
      var c := Choose();
      if Lands(c) {
        view := view.(journal := Some(r));
      }
      past := past + [view];
      return c.fate;
    }

    /** Atomic replacement of one artifact file. */
    method WriteArtifact(key: ArtifactKey, mon: Mon) returns (fate: Fate)
      modifies this
      ensures fate == oracle(old(tick)).fate && tick == old(tick) + 1
      ensures view == old(view) || view == old(view).(artifacts := old(view).artifacts[key := mon])
      ensures fate == Fine ==> view == old(view).(artifacts := old(view).artifacts[key := mon])
      ensures past == old(past) + [view]
    {
      var c := Choose();
      if Lands(c) {
        view := view.(artifacts := view.artifacts[key := mon]);
      }
      past := past + [view];
      return c.fate;
    }

    /**
     One trade. Whether the consoles swap is the environment's choice, also when the call raises or
     the process dies. The honesty assumption: a report that confirms the commit of the very record
     offered is only made after a real swap, and names the record really received.
     */
    method TradeOnce(console: Console, offered: Mon) returns (fate: Fate, report: Report, ghost d: Deal)
      modifies this
      ensures fate == oracle(old(tick)).fate && tick == old(tick) + 1
      ensures report == Told(oracle(old(tick)), Holding(old(view), console), offered)
      ensures IsDeal(old(view), view, d) && d.console == console && d.offered == offered
      ensures report.confirmed && report.offered == offered ==> d.swapped && d.received == report.received
      ensures past == old(past) + [view]
    {
      hide Swap;
      var c := Choose();
      var swapped := c.takesEffect && c.received in Holding(view, console);
      var deal := Deal(console, offered, swapped, c.received);
      var after := if swapped then Swap(view, console, offered, c.received) else view;
      report := Told(c, Holding(view, console), offered);
      view := after.(deals := view.deals + [deal]);
      past := past + [view];
      return c.fate, report, deal;
    }
  }

  predicate IsDeal(before: View, after: View, d: Deal)
  {
    && (d.swapped ==> d.received in Holding(before, d.console))
    && var moved := if d.swapped then Swap(before, d.console, d.offered, d.received) else before;
       after == moved.(deals := before.deals + [d])
  }
}
