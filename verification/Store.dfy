/** The journal record and its store as the mutable objects they are (broker/journal.py). */
module Store {
  import opened Bytes
  import opened Pokemon
  import opened Journal
  import opened World

  /** The in-memory record: every field is updated in place. */
  class JournalRecord {
    const transaction: nat
    var state: State
    var sequence: nat
    var pokemon: map<Label, Option<Digest>>
    var locations: map<Label, Place>
    var slot: Option<int>
    var failed: bool
    var history: seq<Entry>

    function Content(): Record
      reads this
    {
      Record(transaction, state, sequence, pokemon, locations, slot, failed, history)
    }

    constructor (r: Record)
      ensures Content() == r && transaction == r.transaction
    {
      transaction, state, sequence := r.transaction, r.state, r.sequence;
      pokemon, locations, slot := r.pokemon, r.locations, r.slot;
      failed, history := r.failed, r.history;
    }

    /** The assignments of an accepted transition, in place. */
    method Apply(u: Update)
      requires Advance(Content(), u).Ok?
      modifies this
      ensures Content() == Advance(old(Content()), u).value
    {
      sequence := sequence + 1;
      state := u.state;
      pokemon := pokemon + u.pokemon;
      locations := locations + u.locations;
      if u.slot.Some? {
        slot := u.slot;
      }
      failed := u.failed;
      history := history + [Entry(sequence, u.state)];
    }
  }

  /** First the placeholder under its own digest, then the first record; each write old or new. */
  predicate IsCreated(v: View, kept: View, w: View, t: nat, p: Mon, sha: Mon -> Digest)
  {
    var key := ArtifactKey(t, ArtifactP, sha(p));
    && (kept == v || kept == v.(artifacts := v.artifacts[key := p]))
    && (w == kept || (key in kept.artifacts && w == kept.(journal := Some(NewRecord(t, sha(p))))))
  }

  lemma StoredUnder(v: View, w: View, key: ArtifactKey, mon: Mon)
    requires w == v.(artifacts := v.artifacts[key := mon])
    ensures key in w.artifacts && w.journal == v.journal
  {}

  lemma NewRecordIs(t: nat, digest: Digest)
    ensures NewRecord(t, digest).transaction == t
  {}

  /**
   What a process start makes of a journal it finds: an unfinished one that it can load is marked for
   recovery exactly when that write lands.
   */
  function AfterLoad(v: View, load: Choice, mark: Choice): View
  {
    match v.journal
    case None => v
    case Some(r) =>
      if load.fate == Fine && r.state != Complete && r.state != RecoveryRequired && Lands(mark) then
        v.(journal := Some(Marked(r)))
      else v
  }

  class JournalStore {
    const env: Environment
    const sha: Mon -> Digest

    constructor (env: Environment, sha: Mon -> Digest)
      ensures this.env == env && this.sha == sha
    {
      this.env, this.sha := env, sha;
    }

    /** All checks come before the first assignment; the write comes after the last. */
    method Transition(record: JournalRecord, u: Update) returns (fate: Fate)
      modifies record, env
      ensures Advance(old(record.Content()), u).Err? ==>
        && fate == Raised && record.Content() == old(record.Content())
        && env.view == old(env.view) && env.past == old(env.past)
      ensures Advance(old(record.Content()), u).Ok? ==>
        && record.Content() == Advance(old(record.Content()), u).value && record.state == u.state
        && record.slot == (if u.slot.Some? then u.slot else old(record.slot))
        && fate == env.oracle(old(env.tick)).fate && env.tick == old(env.tick) + 1
        && env.view ==
             (if Lands(env.oracle(old(env.tick))) then old(env.view).(journal := Some(record.Content()))
              else old(env.view))
        && env.past == old(env.past) + [env.view]
    {
      hide HashesFit;
      var current := record.state;
      if u.state != RecoveryRequired && NextState(current) != Some(u.state) {
        return Raised;
      }
      if Terminal(current) {
        return Raised;
      }
      if !HashesFit(record.Content(), u.pokemon) {
        return Raised;
      }
      if u.slot.Some? && !(0 <= u.slot.value <= 5) {
        return Raised;
      }
      record.Apply(u);
      fate := env.WriteJournal(record.Content());
    }

    method SaveArtifact(record: JournalRecord, part: ArtifactLabel, mon: Mon) returns (fate: Fate)
      modifies env
      ensures fate == env.oracle(old(env.tick)).fate && env.tick == old(env.tick) + 1
      ensures var key := ArtifactKey(record.transaction, part, sha(mon));
        && (env.view == old(env.view) || env.view == old(env.view).(artifacts := old(env.view).artifacts[key := mon]))
        && (fate == Fine ==> env.view == old(env.view).(artifacts := old(env.view).artifacts[key := mon]))
      ensures env.past == old(env.past) + [env.view]
    {
      fate := env.WriteArtifact(ArtifactKey(record.transaction, part, sha(mon)), mon);
    }

    /**
     A new record, its placeholder artifact first. `kept` is the world between the two writes.
     An existing journal is never overwritten.
     */
    method Create(placeholder: Mon) returns (fate: Fate, record: JournalRecord?, ghost kept: View, ghost t: nat)
      modifies env
      ensures fate == Fine ==> record != null && fresh(record)
      ensures old(env.view.journal).Some? ==> fate != Fine && env.view == old(env.view) && env.past == old(env.past)
      ensures old(env.view.journal) == None ==>
        (fate == Fine <==> env.oracle(old(env.tick) + 1).fate == Fine && env.oracle(old(env.tick) + 2).fate == Fine)
      ensures fate == Fine ==> env.tick == old(env.tick) + 3
      ensures old(env.view.journal) == None ==>
        && IsCreated(old(env.view), kept, env.view, t, placeholder, sha)
        && (env.past == old(env.past) + [kept] + [env.view] || (env.view == kept && env.past == old(env.past) + [kept]))
        && (fate == Fine ==>
          env.view.journal == Some(record.Content()) && record.Content() == NewRecord(t, sha(placeholder)))
    {
      hide *;
      record, kept, t := null, env.view, 0;
      if env.view.journal.Some? {
        fate := env.Pause();
        return if fate == Fine then Raised else fate, null, kept, 0;
      }
      fate, record, kept, t := Initialize(placeholder);
    }

    /** The two writes of a new record. */
    method Initialize(placeholder: Mon) returns (fate: Fate, record: JournalRecord, ghost kept: View, ghost t: nat)
      requires env.view.journal == None
      modifies env
      ensures fresh(record)
      ensures fate == Fine <==> env.oracle(old(env.tick) + 1).fate == Fine && env.oracle(old(env.tick) + 2).fate == Fine
      ensures fate == Fine ==> env.tick == old(env.tick) + 3
      ensures IsCreated(old(env.view), kept, env.view, t, placeholder, sha)
      ensures
        || env.past == old(env.past) + [kept] + [env.view]
        || (env.view == kept && env.past == old(env.past) + [kept])
      ensures fate == Fine ==>
        env.view.journal == Some(record.Content()) && record.Content() == NewRecord(t, sha(placeholder))
    {
      hide NewRecord, JournalRecord.Content, Lands;
      ghost var v := env.view;
      var choice := env.Choose();
      t := choice.transaction;
      NewRecordIs(t, sha(placeholder));
      record := new JournalRecord(NewRecord(choice.transaction, sha(placeholder)));
      fate := SaveArtifact(record, ArtifactP, placeholder);
      kept := env.view;
      if fate != Fine {
        return;
      }
      StoredUnder(v, kept, ArtifactKey(t, ArtifactP, sha(placeholder)), placeholder);
      fate := env.WriteJournal(record.Content());
    }

    /** Any journal left on disk stops the process; an unfinished one is marked first. */
    method RequireNewTransaction() returns (fate: Fate)
      modifies env
      ensures old(env.view.journal) == None ==>
        fate == Fine && env.view == old(env.view) && env.past == old(env.past) && env.tick == old(env.tick)
      ensures old(env.view.journal).Some? ==>
        && fate != Fine
        && env.view == AfterLoad(old(env.view), env.oracle(old(env.tick)), env.oracle(old(env.tick) + 1))
        && (env.past == old(env.past) + [env.view] || (env.past == old(env.past) && env.view == old(env.view)))
    {
      hide Lands;
      if env.view.journal == None {
        return Fine;
      }
      fate := env.Pause();
      if fate != Fine {
        return;
      }
      var record := new JournalRecord(env.view.journal.value);
      if !Terminal(record.state) {
        RecoverMarks(record.Content());
        fate := Transition(record, RECOVER);
        if fate != Fine {
          return;
        }
      }
      fate := env.Pause();
      return if fate == Fine then Raised else fate;
    }
  }
}
