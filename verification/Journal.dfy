/** The transaction journal: its records, its transition rule, and what every record satisfies (broker/journal.py). */
module Journal {
  import opened Bytes
  import opened Pokemon

  datatype State =
    | Idle
    | SwitchStage1Started | SwitchBCaptured | PlaceholderOnSwitch
    | GbaStageStarted | GbaACaptured | BCommittedToGba
    | SwitchStage2Started | ACommittedToSwitch
    | Complete | RecoveryRequired

  predicate Terminal(s: State)
  {
    s == Complete || s == RecoveryRequired
  }

  function NextState(s: State): Option<State>
  {
    match s
    case Idle => Some(SwitchStage1Started)
    case SwitchStage1Started => Some(SwitchBCaptured)
    case SwitchBCaptured => Some(PlaceholderOnSwitch)
    case PlaceholderOnSwitch => Some(GbaStageStarted)
    case GbaStageStarted => Some(GbaACaptured)
    case GbaACaptured => Some(BCommittedToGba)
    case BCommittedToGba => Some(SwitchStage2Started)
    case SwitchStage2Started => Some(ACommittedToSwitch)
    case ACommittedToSwitch => Some(Complete)
    case Complete => None
    case RecoveryRequired => None
  }

  datatype Label = A | B | P | Unlisted(name: string)

  datatype Place =
    | OnGba | OnSwitch | AtBroker
    | GbaUnobserved | SwitchUnobserved | AtBrokerUnverified

  datatype Entry = Entry(sequence: nat, state: State)

  /** A journal record without its timestamps and texts; `failed` says whether `last_error` is set. */
  datatype Record = Record(
    transaction: nat,
    state: State,
    sequence: nat,
    pokemon: map<Label, Option<Digest>>,
    locations: map<Label, Place>,
    slot: Option<int>,
    failed: bool,
    history: seq<Entry>)

  datatype JournalError = InvalidTransition | InvalidUpdate | WriteError | ReadError | RecoveryNeeded(state: State)

  /** The arguments of one `transition` call. */
  datatype Update = Update(
    state: State, pokemon: map<Label, Option<Digest>>, locations: map<Label, Place>, slot: Option<int>, failed: bool)

  function Plain(s: State): Update
  {
    Update(s, map[], map[], None, false)
  }

  const RECOVER := Update(RecoveryRequired, map[], map[], None, true)

  function NewRecord(transaction: nat, placeholder: Digest): Record
  {
    Record(transaction, Idle, 0,
           map[A := None, B := None, P := Some(placeholder)],
           map[A := GbaUnobserved, B := SwitchUnobserved, P := AtBroker],
           None, false, [Entry(0, Idle)])
  }

  predicate Allowed(from: State, to: State)
  {
    !Terminal(from) && (to == RecoveryRequired || NextState(from) == Some(to))
  }

  predicate HashesFit(r: Record, pokemon: map<Label, Option<Digest>>)
  {
    forall l | l in pokemon :: l in r.pokemon && (r.pokemon[l] == None || pokemon[l] == r.pokemon[l])
  }

  predicate SlotFits(slot: Option<int>)
  {
    slot.Some? ==> 0 <= slot.value <= 5
  }

  /** The in-memory effect of `transition`: all checks first, then the whole update. */
  function Advance(r: Record, u: Update): (next: Result<Record, JournalError>)
  {
    if !Allowed(r.state, u.state) then Err(InvalidTransition)
    else if !HashesFit(r, u.pokemon) || !SlotFits(u.slot) then Err(InvalidUpdate)
    else Ok(Record(
      r.transaction, u.state, r.sequence + 1,
      r.pokemon + u.pokemon, r.locations + u.locations,
      if u.slot.Some? then u.slot else r.slot,
      u.failed,
      r.history + [Entry(r.sequence + 1, u.state)]))
  }

  /** A record marked for recovery: one more entry, and an error noted. */
  function Marked(r: Record): Record
  {
    var n := r.sequence + 1;
    r.(state := RecoveryRequired, sequence := n, failed := true, history := r.history + [Entry(n, RecoveryRequired)])
  }

  /** Recovery is possible exactly from an unfinished record, and nothing else of it changes. */
  lemma RecoverMarks(r: Record)
    ensures Advance(r, RECOVER) == if Terminal(r.state) then Err(InvalidTransition) else Ok(Marked(r))
  {
    assert r.pokemon + map[] == r.pokemon && r.locations + map[] == r.locations;
  }

  // ---- What every reachable record satisfies

  /** Steps of the regular path before a state; recovery is not on the path. */
  function Rank(s: State): nat
  {
    match s
    case Idle => 0
    case SwitchStage1Started => 1
    case SwitchBCaptured => 2
    case PlaceholderOnSwitch => 3
    case GbaStageStarted => 4
    case GbaACaptured => 5
    case BCommittedToGba => 6
    case SwitchStage2Started => 7
    case ACommittedToSwitch => 8
    case Complete => 9
    case RecoveryRequired => 9
  }

  /** Entry `i` has sequence `i`; the states follow the graph from IDLE; recovery can only come last. */
  predicate ValidHistory(h: seq<Entry>)
  {
    && |h| > 0 && h[0].state == Idle
    && (forall i | 0 <= i < |h| :: h[i].sequence == i)
    && forall i | 0 < i < |h| :: Allowed(h[i - 1].state, h[i].state)
  }

  ghost predicate ValidRecord(r: Record)
  {
    && ValidHistory(r.history)
    && r.sequence == |r.history| - 1
    && r.state == r.history[|r.history| - 1].state
    && r.pokemon.Keys == {A, B, P}
    && SlotFits(r.slot)
  }

  /**
   What `transition` accepts: from an unfinished state the next on the path, or recovery; only known
   labels, whose hashes may be set once; and only a slot of the party.
   */
  lemma AcceptedIff(r: Record, u: Update)
    ensures Advance(r, u).Ok? <==>
      && r.state != Complete && r.state != RecoveryRequired
      && (u.state == RecoveryRequired || Rank(u.state) == Rank(r.state) + 1)
      && (forall l | l in u.pokemon :: l in r.pokemon && (r.pokemon[l].Some? ==> u.pokemon[l] == r.pokemon[l]))
      && (u.slot.Some? ==> 0 <= u.slot.value <= 5)
  {}

  lemma NewRecordValid(transaction: nat, placeholder: Digest)
    ensures ValidRecord(NewRecord(transaction, placeholder))
  {}

  lemma AdvanceValid(r: Record, u: Update)
    requires ValidRecord(r) && Advance(r, u).Ok?
    ensures ValidRecord(Advance(r, u).value)
  {
    var next := Advance(r, u).value;
    forall i | 0 < i < |next.history|
      ensures Allowed(next.history[i - 1].state, next.history[i].state)
    {
      if i < |r.history| {
        assert next.history[i] == r.history[i] && next.history[i - 1] == r.history[i - 1];
      }
    }
  }

  /** A known hash never changes, the transaction never changes, and history only grows. */
  predicate Extends(before: Record, after: Record)
  {
    && before.transaction == after.transaction
    && before.history <= after.history
    && before.pokemon.Keys <= after.pokemon.Keys
    && forall l | l in before.pokemon && before.pokemon[l].Some? :: after.pokemon[l] == before.pokemon[l]
  }

  lemma AdvanceExtends(r: Record, u: Update)
    requires Advance(r, u).Ok?
    ensures Extends(r, Advance(r, u).value)
  {}

  lemma ExtendsTransitive(a: Record, b: Record, c: Record)
    requires Extends(a, b) && Extends(b, c)
    ensures Extends(a, c)
  {
    assert b.history[..|a.history|] == a.history && c.history[..|b.history|] == b.history;
    assert c.history[..|a.history|] == b.history[..|a.history|];
  }

  /** Any calls of `transition`, rejected ones included. */
  function Advances(r: Record, us: seq<Update>): Record
    decreases |us|
  {
    if us == [] then r
    else Advances(if Advance(r, us[0]).Ok? then Advance(r, us[0]).value else r, us[1..])
  }

  lemma {:induction false} AdvancesInvariant(r: Record, us: seq<Update>)
    requires ValidRecord(r)
    ensures ValidRecord(Advances(r, us)) && Extends(r, Advances(r, us))
    decreases |us|
  {
    hide ValidRecord, Extends, Advance;
    if us == [] {
      ExtendsItself(r);
    } else {
      var next := if Advance(r, us[0]).Ok? then Advance(r, us[0]).value else r;
      if Advance(r, us[0]).Ok? {
        AdvanceValid(r, us[0]);
        AdvanceExtends(r, us[0]);
      } else {
        ExtendsItself(r);
      }
      AdvancesInvariant(next, us[1..]);
      ExtendsTransitive(r, next, Advances(next, us[1..]));
    }
  }

  lemma ExtendsItself(r: Record)
    ensures Extends(r, r)
  {}

  lemma {:induction false} HistoryRank(h: seq<Entry>, i: nat)
    requires ValidHistory(h) && i < |h|
    ensures Rank(h[i].state) >= i && (h[i].state != RecoveryRequired ==> Rank(h[i].state) == i)
  {
    if i > 0 {
      HistoryRank(h, i - 1);
      assert Allowed(h[i - 1].state, h[i].state);
    }
  }

  lemma RecoveryLast(h: seq<Entry>)
    requires ValidHistory(h)
    ensures forall i | 0 <= i < |h| - 1 :: h[i].state != RecoveryRequired
  {
    forall i | 0 <= i < |h| - 1
      ensures h[i].state != RecoveryRequired
    {
      assert Allowed(h[i + 1 - 1].state, h[i + 1].state);
    }
  }

  /**
   In every record reachable from `create` by any calls: the history is a path of the graph from IDLE,
   numbered from 0, ended by recovery at most once, no hash is ever replaced, and at most nine
   transitions have succeeded.
   */
  lemma JournalHistory(transaction: nat, placeholder: Digest, us: seq<Update>)
    ensures var r := Advances(NewRecord(transaction, placeholder), us);
      && ValidRecord(r) && |r.history| <= 10
      && (r.slot.Some? ==> 0 <= r.slot.value <= 5)
      && r.pokemon[P] == Some(placeholder)
      && (forall i | 0 <= i < |r.history| :: r.history[i].state == RecoveryRequired ==> i == |r.history| - 1)
      && Extends(NewRecord(transaction, placeholder), r)
  {
    hide Advances, Allowed, ValidHistory;
    var start := NewRecord(transaction, placeholder);
    var r := Advances(start, us);
    assert start.pokemon[P] == Some(placeholder);
    hide NewRecord;
    NewRecordValid(transaction, placeholder);
    AdvancesInvariant(start, us);
    HistoryRank(r.history, |r.history| - 1);
    RecoveryLast(r.history);
  }
}
