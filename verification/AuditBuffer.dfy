/** The audit writer: a bounded buffer, flushed in batches that may overlap. */
module AuditBuffer {

  const BUFFER_SIZE: nat := 100
  const MAX_BUFFER_SIZE: nat := 10000

  /** A log entry; `id` is the fresh id it gets when it is written. */
  datatype Entry = Entry(
    id: string, userId: string, orgId: string, workflowId: string, action: string, resourceType: string,
    resourceRef: string, resourceScope: string, result: string, detail: string, traceId: string, occurredAt: string)

  /** How a flush ends: whether the batch was inserted into the database, how many of its entries reached the log,
      and whether an error escaped. Without one, the batch was inserted and not logged, or the fallback logged all
      of it, perhaps after an insert whose reply was lost. */
  datatype Outcome = Outcome(inserted: bool, logged: nat, failed: bool)

  predicate Possible(batch: seq<Entry>, outcome: Outcome) {
    && outcome.logged <= |batch|
    && (outcome.failed || outcome.logged == |batch| || (outcome.inserted && outcome.logged == 0))
  }

  /** The rows of the audit table by their primary key. */
  type Table = map<string, Entry>

  /** The buffer, the flushes under way and the table, with the history of what became of each entry: `accepted` by
      `write`, `inserted` as often as an insert delivered it, `logged`, and `discarded` when a failed batch no longer
      fitted. */
  datatype State = State(
    buffer: seq<Entry>,
    flushes: map<nat, seq<Entry>>,
    nextFlush: nat,
    dropped: nat,
    accepted: multiset<Entry>,
    inserted: multiset<Entry>,
    table: Table,
    logged: multiset<Entry>,
    discarded: multiset<Entry>)

  const EMPTY_WRITER :=
    State([], map[], 0, 0, multiset{}, multiset{}, map[], multiset{}, multiset{})

  datatype Event =
    | Write(entry: Entry)
    | Tick
    | Finish(flush: nat, outcome: Outcome)

  function Flush(s: State): State {
    if s.buffer == [] then s
    else s.(buffer := [], flushes := s.flushes[s.nextFlush := s.buffer], nextFlush := s.nextFlush + 1)
  }

  function Push(s: State, entry: Entry): State {
    s.(buffer := s.buffer + [entry], accepted := s.accepted + multiset{entry})
  }

  function Requeue(s: State, batch: seq<Entry>): State {
    if |s.buffer| + |batch| <= MAX_BUFFER_SIZE then s.(buffer := batch + s.buffer)
    else s.(discarded := s.discarded + multiset(batch))
  }

  /** The table after an insert of the batch: an id that it already holds changes nothing. */
  function Inserted(table: Table, batch: seq<Entry>): Table {
    if batch == [] then table
    else
      var before := Inserted(table, batch[..|batch| - 1]);
      var last := batch[|batch| - 1];
      if last.id in before then before else before[last.id := last]
  }

  function Delivers(s: State, batch: seq<Entry>, outcome: Outcome): State
    requires outcome.logged <= |batch|
  {
    s.(
      inserted := s.inserted + (if outcome.inserted then multiset(batch) else multiset{}),
      table := if outcome.inserted then Inserted(s.table, batch) else s.table,
      logged := s.logged + multiset(batch[..outcome.logged]))
  }

  /** The event ends a flush that is under way in a way that is possible. */
  predicate Ends(s: State, e: Event) {
    e.Finish? && e.flush in s.flushes && Possible(s.flushes[e.flush], e.outcome)
  }

  function EndFlush(s: State, flush: nat, outcome: Outcome): State
    requires flush in s.flushes && Possible(s.flushes[flush], outcome)
  {
    var done := Delivers(s, s.flushes[flush], outcome).(flushes := s.flushes - {flush});
    if outcome.failed then Requeue(done, s.flushes[flush]) else done
  }

  function Step(s: State, e: Event): State {
    match e
    case Write(entry) =>
      if |s.buffer| >= MAX_BUFFER_SIZE then s.(dropped := s.dropped + 1)
      else
        var pushed := Push(s, entry);
        if |pushed.buffer| >= BUFFER_SIZE then Flush(pushed) else pushed
    case Tick => Flush(s)
    case Finish(flush, outcome) => if Ends(s, e) then EndFlush(s, flush, outcome) else s
  }

  function After(events: seq<Event>): State {
    if events == [] then EMPTY_WRITER else Step(After(events[..|events| - 1]), events[|events| - 1])
  }

  lemma AfterNext(events: seq<Event>, e: Event)
    ensures After(events + [e]) == Step(After(events), e)
  {
    assert (events + [e])[..|events|] == events;
  }

  // ----- conservation of deliveries -----

  /** How often an entry is in the flushes with numbers below `n` that are under way. */
  ghost function InFlight(flushes: map<nat, seq<Entry>>, n: nat, x: Entry): nat {
    if n == 0 then 0
    else InFlight(flushes, n - 1, x) + (if n - 1 in flushes then multiset(flushes[n - 1])[x] else 0)
  }

  lemma {:induction false} StartInFlight(flushes: map<nat, seq<Entry>>, n: nat, k: nat, batch: seq<Entry>, x: Entry)
    requires k >= n
    ensures InFlight(flushes[k := batch], n, x) == InFlight(flushes, n, x)
  {
    if n > 0 { StartInFlight(flushes, n - 1, k, batch, x); }
  }

  lemma {:induction false} EndInFlight(flushes: map<nat, seq<Entry>>, n: nat, k: nat, x: Entry)
    requires k in flushes
    ensures InFlight(flushes, n, x) == InFlight(flushes - {k}, n, x) + (if k < n then multiset(flushes[k])[x] else 0)
  {
    if n > 0 { EndInFlight(flushes, n - 1, k, x); }
  }

  /** How often an entry is buffered or in a flush under way. */
  ghost function Waiting(s: State, x: Entry): nat {
    multiset(s.buffer)[x] + InFlight(s.flushes, s.nextFlush, x)
  }

  /** How often an entry is waiting, or was delivered or discarded. */
  ghost function Places(s: State, x: Entry): nat {
    Waiting(s, x) + s.inserted[x] + s.logged[x] + s.discarded[x]
  }

  ghost predicate Numbered(s: State) {
    (forall k :: k in s.flushes ==> k < s.nextFlush) && forall k :: k in s.flushes ==> s.flushes[k] != []
  }

  lemma FlushNumbered(s: State)
    requires Numbered(s)
    ensures Numbered(Flush(s))
  {
  }

  lemma FewerNumbered(s: State, flush: nat, outcome: Outcome)
    requires Numbered(s) && flush in s.flushes && Possible(s.flushes[flush], outcome)
    ensures Numbered(EndFlush(s, flush, outcome))
  {
    hide Possible, Inserted, Numbered;
    EndedNumbered(s, flush);
    SameNumbered(s.(flushes := s.flushes - {flush}), EndFlush(s, flush, outcome));
  }

  lemma EndedNumbered(s: State, flush: nat)
    requires Numbered(s)
    ensures Numbered(s.(flushes := s.flushes - {flush}))
  {
  }

  lemma SameNumbered(s: State, t: State)
    requires Numbered(s) && t.flushes == s.flushes && t.nextFlush == s.nextFlush
    ensures Numbered(t)
  {
  }

  lemma StepNumbered(s: State, e: Event)
    requires Numbered(s)
    ensures Numbered(Step(s, e))
  {
    hide Numbered, EndFlush, Flush, Possible;
    match e {
      case Write(entry) =>
        SameNumbered(s, s.(dropped := s.dropped + 1));
        SameNumbered(s, Push(s, entry));
        FlushNumbered(Push(s, entry));
      case Tick => FlushNumbered(s);
      case Finish(flush, outcome) => if Ends(s, e) { FewerNumbered(s, flush, outcome); }
    }
  }

  lemma {:induction false} AlwaysNumbered(events: seq<Event>)
    ensures Numbered(After(events))
  {
    if events != [] {
      AlwaysNumbered(events[..|events| - 1]);
      StepNumbered(After(events[..|events| - 1]), events[|events| - 1]);
    }
  }

  /** What a step does to the entries that wait: a write adds the accepted entry, the start of a flush moves entries,
      and the end of one takes its batch away unless the batch goes back into the buffer. */
  lemma StepWaiting(s: State, e: Event, x: Entry)
    requires Numbered(s)
    ensures var t := Step(s, e);
            if Ends(s, e) then
              Waiting(t, x) + t.discarded[x] + (if e.outcome.failed then 0 else multiset(s.flushes[e.flush])[x])
              == Waiting(s, x) + s.discarded[x] && t.accepted == s.accepted
            else Waiting(t, x) - Waiting(s, x) == t.accepted[x] - s.accepted[x] && t.discarded == s.discarded
  {
    hide InFlight;
    match e {
      case Write(entry) =>
        PushWaiting(s, entry, x);
        FlushWaiting(Push(s, entry), x);
      case Tick => FlushWaiting(s, x);
      case Finish(flush, outcome) =>
        if Ends(s, e) {
          EndInFlight(s.flushes, s.nextFlush, flush, x);
          assert multiset(s.flushes[flush] + s.buffer) == multiset(s.flushes[flush]) + multiset(s.buffer);
        }
    }
  }

  lemma PushWaiting(s: State, entry: Entry, x: Entry)
    requires Numbered(s)
    ensures Numbered(Push(s, entry))
    ensures Waiting(Push(s, entry), x) - Waiting(s, x) == Push(s, entry).accepted[x] - s.accepted[x]
  {
    assert multiset(s.buffer + [entry]) == multiset(s.buffer) + multiset{entry};
  }

  lemma FlushWaiting(s: State, x: Entry)
    requires Numbered(s)
    ensures Waiting(Flush(s), x) == Waiting(s, x)
  {
    if s.buffer != [] {
      StartInFlight(s.flushes, s.nextFlush, s.nextFlush, s.buffer, x);
    }
  }

  /** The entries that a flush delivered, and those that it gave back. */
  function Delivered(batch: seq<Entry>, outcome: Outcome): multiset<Entry>
    requires Possible(batch, outcome)
  {
    (if outcome.inserted then multiset(batch) else multiset{})
    + multiset(batch[..outcome.logged])
    + (if outcome.failed then multiset(batch) else multiset{})
  }

  /** A flush that ends one way only: the batch is inserted, or logged, or given back untouched. */
  predicate Clean(batch: seq<Entry>, outcome: Outcome) {
    || (outcome.inserted && outcome.logged == 0 && !outcome.failed)
    || (!outcome.inserted && outcome.logged == |batch| && !outcome.failed)
    || (!outcome.inserted && outcome.logged == 0 && outcome.failed)
  }

  /** A flush repeats no entry exactly when it ends one way only (batches are never empty), and it never loses one. */
  lemma CleanRepeatsNothing(batch: seq<Entry>, outcome: Outcome)
    requires Possible(batch, outcome) && batch != []
    ensures multiset(batch) <= Delivered(batch, outcome)
    ensures Delivered(batch, outcome) == multiset(batch) <==> Clean(batch, outcome)
  {
    assert batch[..|batch|] == batch && batch[..0] == [];
    var delivered := Delivered(batch, outcome);
    assert |delivered| == (if outcome.inserted then |batch| else 0) + outcome.logged + (if outcome.failed then |batch| else 0);
    if delivered == multiset(batch) {
      assert |delivered| == |batch|;
    }
  }

  /** How much a flush delivers and gives back of an entry beyond what its batch holds of it. */
  ghost function Repetition(s: State, e: Event, x: Entry): int {
    if Ends(s, e) then Delivered(s.flushes[e.flush], e.outcome)[x] as int - multiset(s.flushes[e.flush])[x] else 0
  }

  ghost function Repetitions(events: seq<Event>, x: Entry): int {
    if events == [] then 0
    else
      var before := events[..|events| - 1];
      Repetitions(before, x) + Repetition(After(before), events[|events| - 1], x)
  }

  lemma StepBalance(s: State, e: Event, x: Entry)
    requires Numbered(s)
    ensures Places(Step(s, e), x) - Places(s, x) == Step(s, e).accepted[x] - s.accepted[x] + Repetition(s, e, x)
  {
    hide Waiting, Numbered, Possible;
    StepWaiting(s, e, x);
  }

  lemma {:induction false} AlwaysBalanced(events: seq<Event>, x: Entry)
    ensures Places(After(events), x) == After(events).accepted[x] + Repetitions(events, x)
  {
    if events != [] {
      hide Places, Step, Repetition, Numbered;
      var before := events[..|events| - 1];
      AlwaysBalanced(before, x);
      AlwaysNumbered(before);
      StepBalance(After(before), events[|events| - 1], x);
    }
  }

  ghost predicate CleanStep(s: State, e: Event) {
    Ends(s, e) ==> Clean(s.flushes[e.flush], e.outcome)
  }

  /** Every flush that ended, ended one way only. */
  ghost predicate AllClean(events: seq<Event>) {
    forall n: nat :: n < |events| ==> CleanStep(After(events[..n]), events[n])
  }

  ghost predicate NoRepetition(events: seq<Event>) {
    forall x :: Repetitions(events, x) == 0
  }

  lemma AllCleanNext(events: seq<Event>)
    requires events != []
    ensures var before := events[..|events| - 1];
            AllClean(events) <==> AllClean(before) && CleanStep(After(before), events[|events| - 1])
  {
    hide After, CleanStep;
    var before := events[..|events| - 1];
    forall n: nat | n < |before| ensures before[..n] == events[..n] && before[n] == events[n] {
    }
  }

  /** A step that ends a flush repeats nothing exactly when it is clean, and never takes an entry away. */
  lemma StepRepetition(s: State, e: Event)
    requires Numbered(s)
    ensures forall x :: Repetition(s, e, x) >= 0
    ensures (forall x :: Repetition(s, e, x) == 0) <==> CleanStep(s, e)
  {
    if Ends(s, e) {
      hide Delivered, Clean;
      var batch := s.flushes[e.flush];
      CleanRepeatsNothing(batch, e.outcome);
      if forall x :: Repetition(s, e, x) == 0 {
        forall x ensures Delivered(batch, e.outcome)[x] == multiset(batch)[x] {
          assert Repetition(s, e, x) == 0;
        }
        assert Delivered(batch, e.outcome) == multiset(batch);
      }
    }
  }

  lemma {:induction false} RepetitionsOfUnclean(events: seq<Event>)
    ensures forall x :: Repetitions(events, x) >= 0
    ensures NoRepetition(events) <==> AllClean(events)
  {
    if events != [] {
      hide Repetition, After, CleanStep, AllClean, Numbered;
      var before, e := events[..|events| - 1], events[|events| - 1];
      RepetitionsOfUnclean(before);
      AlwaysNumbered(before);
      StepRepetition(After(before), e);
      AllCleanNext(events);
      forall x ensures Repetitions(events, x) == Repetitions(before, x) + Repetition(After(before), e, x) {
      }
      if NoRepetition(events) {
        forall x ensures Repetitions(before, x) == 0 && Repetition(After(before), e, x) == 0 {
          assert Repetitions(events, x) == 0;
        }
      }
    }
  }

  /** Each entry is found as often as it was accepted. */
  ghost predicate Balanced(s: State) {
    forall x :: Places(s, x) == s.accepted[x]
  }

  /** Over every interleaving of writes and overlapping flushes, every accepted entry waits, was delivered or was
      discarded; and it is found there as often as it was accepted, no more, if and only if every flush ended one
      way only. */
  lemma NothingIsLost(events: seq<Event>)
    ensures forall x :: Places(After(events), x) >= After(events).accepted[x]
    ensures Balanced(After(events)) <==> AllClean(events)
  {
    hide Places, After, Repetitions, AllClean;
    RepetitionsOfUnclean(events);
    forall x ensures Places(After(events), x) == After(events).accepted[x] + Repetitions(events, x) {
      AlwaysBalanced(events, x);
    }
    if Balanced(After(events)) {
      forall x ensures Repetitions(events, x) == 0 {
        assert Places(After(events), x) == After(events).accepted[x];
      }
      assert NoRepetition(events);
    } else {
      var x :| Places(After(events), x) != After(events).accepted[x];
      assert Repetitions(events, x) != 0;
    }
  }

  // ----- conservation in the table -----

  /** No two writes have the same id. */
  ghost predicate FreshIds(events: seq<Event>) {
    forall i, j :: 0 <= i < j < |events| && events[i].Write? && events[j].Write? ==> events[i].entry.id != events[j].entry.id
  }

  ghost predicate HasRow(table: Table, x: Entry) {
    x.id in table && table[x.id] == x
  }

  /** How often an entry waits, has a row in the table, or was logged or discarded. */
  ghost function RowPlaces(s: State, x: Entry): nat {
    Waiting(s, x) + (if HasRow(s.table, x) then 1 else 0) + s.logged[x] + s.discarded[x]
  }

  /** What a flush can do to an entry of its batch: insert it, log it, end without giving it back, insert it and not
      give it back, or log it although it inserts it or gives it back. */
  datatype Deed = Inserts | Logs | Lets | Keeps | Mixes

  ghost predicate Does(s: State, e: Event, x: Entry, deed: Deed) {
    && Ends(s, e) && x in s.flushes[e.flush]
    && match deed
       case Inserts => e.outcome.inserted
       case Logs => x in s.flushes[e.flush][..e.outcome.logged]
       case Lets => !e.outcome.failed
       case Keeps => e.outcome.inserted && !e.outcome.failed
       case Mixes => x in s.flushes[e.flush][..e.outcome.logged] && (e.outcome.inserted || e.outcome.failed)
  }

  ghost predicate Happened(events: seq<Event>, x: Entry, deed: Deed) {
    exists n: nat :: n < |events| && Does(After(events[..n]), events[n], x, deed)
  }

  lemma HappenedNext(events: seq<Event>, x: Entry, deed: Deed)
    requires events != []
    ensures var before := events[..|events| - 1];
            Happened(events, x, deed) <==>
              Happened(before, x, deed) || Does(After(before), events[|events| - 1], x, deed)
  {
    hide After, Does;
    var before := events[..|events| - 1];
    forall n: nat | n < |before| ensures before[..n] == events[..n] && before[n] == events[n] {
    }
    if Happened(before, x, deed) {
      var n: nat :| n < |before| && Does(After(before[..n]), before[n], x, deed);
      assert Does(After(events[..n]), events[n], x, deed);
    }
    if n: nat :| n < |events| && Does(After(events[..n]), events[n], x, deed) {
      assert n < |before| ==> Does(After(before[..n]), before[n], x, deed);
    }
  }

  /** No flush logged what it inserted or gave back, and what was inserted was in the end inserted by a flush that
      did not give it back. */
  ghost predicate SettledFor(events: seq<Event>, x: Entry) {
    !Happened(events, x, Mixes) && (Happened(events, x, Inserts) ==> Happened(events, x, Keeps))
  }

  /** An insert never changes a row, and adds rows for the entries of the batch only. */
  lemma {:induction false} InsertedRows(table: Table, batch: seq<Entry>, x: Entry)
    ensures HasRow(Inserted(table, batch), x) ==> HasRow(table, x) || x in batch
    ensures HasRow(table, x) ==> HasRow(Inserted(table, batch), x)
    ensures x in batch && (x.id in table ==> table[x.id] == x) && (forall y :: y in batch && y.id == x.id ==> y == x)
            ==> HasRow(Inserted(table, batch), x)
    ensures x.id in Inserted(table, batch) ==> x.id in table || exists y :: y in batch && y.id == x.id
  {
    if batch != [] {
      var rest, last := batch[..|batch| - 1], batch[|batch| - 1];
      InsertedRows(table, rest, x);
      assert last in batch && forall y :: y in rest ==> y in batch;
      assert x in batch && x != last ==> x in rest;
    }
  }

  /** How the trace of one entry fits what can be seen of it: its acceptances, how often it waits or was discarded,
      whether it has a row, and how often it was logged. */
  ghost predicate Fits(inserts: bool, logs: bool, lets: bool, keeps: bool, mixes: bool,
                       accepted: nat, open: nat, row: bool, logged: nat)
  {
    && accepted <= 1 && open + (if lets then 1 else 0) == accepted
    && (row <==> inserts) && (row ==> accepted == 1) && (logged > 0 <==> logs)
    && (keeps ==> lets && inserts) && (mixes ==> logs) && (logs ==> mixes || lets)
    && (if row then 1 else 0) + logged >= (if lets then 1 else 0)
    && ((if row then 1 else 0) + logged == (if lets then 1 else 0) <==> !mixes && (inserts ==> keeps))
  }

  lemma FitsNext(inserts: bool, logs: bool, lets: bool, keeps: bool, mixes: bool, accepted: nat, open: nat, row: bool,
                 logged: nat, inserted: bool, failed: bool, logging: bool)
    requires Fits(inserts, logs, lets, keeps, mixes, accepted, open, row, logged)
    requires open > 0 && (failed || inserted || logging)
    ensures Fits(inserts || inserted, logs || logging, lets || !failed, keeps || (inserted && !failed),
                 mixes || (logging && (inserted || failed)),
                 accepted, if failed then open else 0, row || inserted, logged + if logging then 1 else 0)
  {
  }

  /** What is known of one entry in a state, given what happened to it. */
  ghost predicate TracedBy(s: State, x: Entry, inserts: bool, logs: bool, lets: bool, keeps: bool, mixes: bool) {
    Fits(inserts, logs, lets, keeps, mixes, s.accepted[x], Waiting(s, x) + s.discarded[x], HasRow(s.table, x), s.logged[x])
  }

  ghost predicate TracedFor(events: seq<Event>, x: Entry) {
    TracedBy(After(events), x, Happened(events, x, Inserts), Happened(events, x, Logs), Happened(events, x, Lets),
             Happened(events, x, Keeps), Happened(events, x, Mixes))
  }

  ghost predicate RowsById(table: Table) {
    forall id :: id in table ==> table[id].id == id
  }

  ghost predicate Traced(events: seq<Event>) {
    (forall x :: TracedFor(events, x)) && RowsById(After(events).table)
  }

  lemma StepAccepts(s: State, e: Event, x: Entry)
    ensures Step(s, e).accepted[x] > 0 ==> s.accepted[x] > 0 || e == Write(x)
  {
    hide Possible, Inserted;
  }

  lemma {:induction false} AcceptedWereWritten(events: seq<Event>, x: Entry)
    ensures After(events).accepted[x] > 0 ==> Write(x) in events
  {
    hide Step;
    if events != [] {
      var before, e := events[..|events| - 1], events[|events| - 1];
      AcceptedWereWritten(before, x);
      StepAccepts(After(before), e, x);
      assert events == before + [e];
    }
  }

  lemma AcceptedHaveOwnIds(events: seq<Event>, x: Entry, y: Entry)
    requires FreshIds(events) && x.id == y.id
    requires Write(x) in events && Write(y) in events
    ensures x == y
  {
    var i :| 0 <= i < |events| && events[i] == Write(x);
    var j :| 0 <= j < |events| && events[j] == Write(y);
    assert i == j;
  }

  lemma BatchWaits(s: State, flush: nat, x: Entry)
    requires Numbered(s) && flush in s.flushes
    ensures multiset(s.flushes[flush])[x] <= Waiting(s, x)
  {
    EndInFlight(s.flushes, s.nextFlush, flush, x);
  }

  lemma PrefixCount(batch: seq<Entry>, n: nat, x: Entry)
    requires n <= |batch|
    ensures multiset(batch[..n])[x] <= multiset(batch)[x]
    ensures x in batch[..n] <==> multiset(batch[..n])[x] > 0
    ensures x in batch <==> multiset(batch)[x] > 0
    ensures x in batch[..n] ==> x in batch
    ensures n == |batch| ==> batch[..n] == batch
  {
    assert batch == batch[..n] + batch[n..];
    assert multiset(batch) == multiset(batch[..n]) + multiset(batch[n..]);
    assert x in batch[..n] <==> x in multiset(batch[..n]);
    assert x in batch <==> x in multiset(batch);
  }

  /** The row of an entry after a step: one that it had, or one that the step inserted. */
  lemma StepRow(s: State, e: Event, x: Entry)
    requires Ends(s, e) && x in s.flushes[e.flush] ==>
               (x.id in s.table ==> s.table[x.id] == x) &&
               forall y :: y in s.flushes[e.flush] && y.id == x.id ==> y == x
    ensures HasRow(Step(s, e).table, x) <==> HasRow(s.table, x) || Does(s, e, x, Inserts)
  {
    if Ends(s, e) {
      InsertedRows(s.table, s.flushes[e.flush], x);
    }
  }

  /** The effect of a step on what can be seen of an entry that is in no batch that ends. */
  lemma StepElsewhere(s: State, e: Event, x: Entry)
    requires Numbered(s) && !(Ends(s, e) && x in s.flushes[e.flush])
    ensures var t := Step(s, e);
            && Waiting(t, x) + t.discarded[x] - t.accepted[x] == Waiting(s, x) + s.discarded[x] - s.accepted[x]
            && t.logged[x] == s.logged[x]
            && t.accepted[x] == s.accepted[x] + (if e == Write(x) && |s.buffer| < MAX_BUFFER_SIZE then 1 else 0)
  {
    hide Waiting, Numbered;
    StepWaiting(s, e, x);
    if Ends(s, e) { PrefixCount(s.flushes[e.flush], e.outcome.logged, x); }
  }

  /** The effect of the end of a flush on what can be seen of an entry of its batch. */
  lemma StepHere(s: State, e: Event, x: Entry)
    requires Numbered(s) && Ends(s, e) && x in s.flushes[e.flush]
    requires Waiting(s, x) + s.discarded[x] <= 1
    ensures var t := Step(s, e);
            && Waiting(s, x) == 1 && t.accepted == s.accepted
            && Waiting(t, x) + t.discarded[x] == (if e.outcome.failed then 1 else 0)
            && t.logged[x] == s.logged[x] + (if Does(s, e, x, Logs) then 1 else 0)
            && (e.outcome.failed || e.outcome.inserted || Does(s, e, x, Logs))
  {
    hide Waiting, Numbered;
    StepWaiting(s, e, x);
    BatchWaits(s, e.flush, x);
    PrefixCount(s.flushes[e.flush], e.outcome.logged, x);
  }

  lemma TracedStep(s: State, e: Event, x: Entry, inserts: bool, logs: bool, lets: bool, keeps: bool, mixes: bool)
    requires Numbered(s) && TracedBy(s, x, inserts, logs, lets, keeps, mixes)
    requires e == Write(x) ==> s.accepted[x] == 0
    requires HasRow(Step(s, e).table, x) <==> HasRow(s.table, x) || Does(s, e, x, Inserts)
    ensures TracedBy(Step(s, e), x, inserts || Does(s, e, x, Inserts), logs || Does(s, e, x, Logs),
                     lets || Does(s, e, x, Lets), keeps || Does(s, e, x, Keeps), mixes || Does(s, e, x, Mixes))
  {
    hide Step, Waiting, HasRow, Numbered;
    if Ends(s, e) && x in s.flushes[e.flush] {
      StepHere(s, e, x);
      FitsNext(inserts, logs, lets, keeps, mixes, s.accepted[x], Waiting(s, x) + s.discarded[x], HasRow(s.table, x),
               s.logged[x], e.outcome.inserted, e.outcome.failed, Does(s, e, x, Logs));
    } else {
      StepElsewhere(s, e, x);
    }
  }

  lemma InBatchWasWritten(events: seq<Event>, flush: nat, x: Entry)
    requires TracedFor(events, x) && Numbered(After(events))
    requires flush in After(events).flushes && x in After(events).flushes[flush]
    ensures Write(x) in events
  {
    hide After, Happened, Waiting, HasRow, Numbered;
    var s := After(events);
    BatchWaits(s, flush, x);
    PrefixCount(s.flushes[flush], 0, x);
    AcceptedWereWritten(events, x);
  }

  lemma RowWasWritten(events: seq<Event>, x: Entry)
    requires TracedFor(events, x) && HasRow(After(events).table, x)
    ensures Write(x) in events
  {
    hide After, Happened, Waiting;
    AcceptedWereWritten(events, x);
  }

  lemma RowNext(events: seq<Event>, e: Event, x: Entry)
    requires FreshIds(events) && Traced(events) && Numbered(After(events))
    ensures var s := After(events);
            HasRow(Step(s, e).table, x) <==> HasRow(s.table, x) || Does(s, e, x, Inserts)
  {
    hide After, Numbered, TracedFor, Step, Does;
    var s := After(events);
    if Ends(s, e) && x in s.flushes[e.flush] {
      InBatchWasWritten(events, e.flush, x);
      if x.id in s.table {
        RowWasWritten(events, s.table[x.id]);
        AcceptedHaveOwnIds(events, x, s.table[x.id]);
      }
      forall y | y in s.flushes[e.flush] && y.id == x.id ensures y == x {
        InBatchWasWritten(events, e.flush, y);
        AcceptedHaveOwnIds(events, x, y);
      }
    }
    StepRow(s, e, x);
  }

  lemma {:induction false} InsertedById(table: Table, batch: seq<Entry>)
    requires RowsById(table)
    ensures RowsById(Inserted(table, batch))
  {
    if batch != [] { InsertedById(table, batch[..|batch| - 1]); }
  }

  lemma StepById(s: State, e: Event)
    requires RowsById(s.table)
    ensures RowsById(Step(s, e).table)
  {
    if Ends(s, e) { InsertedById(s.table, s.flushes[e.flush]); }
  }

  lemma FreshBefore(events: seq<Event>, e: Event)
    requires FreshIds(events + [e])
    ensures FreshIds(events)
    ensures e.Write? ==> After(events).accepted[e.entry] == 0
  {
    hide After;
    var all := events + [e];
    forall i, j | 0 <= i < j < |events| && events[i].Write? && events[j].Write?
      ensures events[i].entry.id != events[j].entry.id
    {
      assert all[i].entry.id != all[j].entry.id;
    }
    if e.Write? {
      AcceptedWereWritten(events, e.entry);
      forall i | 0 <= i < |events| ensures events[i] != e {
        assert all[i].Write? ==> all[i].entry.id != all[|events|].entry.id;
      }
    }
  }

  lemma TracedNext(events: seq<Event>, e: Event, x: Entry)
    requires FreshIds(events) && Traced(events) && Numbered(After(events))
    requires e == Write(x) ==> After(events).accepted[x] == 0
    ensures TracedFor(events + [e], x)
  {
    hide After, Step, Does, Happened, TracedBy, Numbered;
    assert (events + [e])[..|events|] == events;
    AfterNext(events, e);
    assert TracedFor(events, x);
    RowNext(events, e, x);
    TracedStep(After(events), e, x, Happened(events, x, Inserts), Happened(events, x, Logs), Happened(events, x, Lets),
               Happened(events, x, Keeps), Happened(events, x, Mixes));
    HappenedNext(events + [e], x, Inserts);
    HappenedNext(events + [e], x, Logs);
    HappenedNext(events + [e], x, Lets);
    HappenedNext(events + [e], x, Keeps);
    HappenedNext(events + [e], x, Mixes);
  }

  lemma {:induction false} AlwaysTraced(events: seq<Event>)
    requires FreshIds(events)
    ensures Traced(events)
  {
    if events == [] {
      forall x ensures TracedFor([], x) { NothingTraced(x); }
    } else {
      hide After, Step, TracedFor, Numbered, FreshIds;
      var before, e := events[..|events| - 1], events[|events| - 1];
      assert before + [e] == events;
      FreshBefore(before, e);
      AlwaysTraced(before);
      AlwaysNumbered(before);
      forall x ensures TracedFor(events, x) { TracedNext(before, e, x); }
      StepById(After(before), e);
      AfterNext(before, e);
    }
  }

  lemma NothingTraced(x: Entry)
    ensures TracedFor([], x)
  {
  }

  /** Each entry waits, has a row, or was logged or discarded as often as it was accepted. */
  ghost predicate RowBalanced(s: State) {
    forall x :: RowPlaces(s, x) == s.accepted[x]
  }

  /** The same for the rows of the table, in which an entry that is inserted again has still one row (ids are fresh):
      no accepted entry is lost, and each is found as often as it was accepted if and only if no flush logged what it
      inserted or gave back, and all that was inserted was in the end inserted by a flush that did not give it back. */
  lemma NoRowIsLost(events: seq<Event>)
    requires FreshIds(events)
    ensures forall x :: RowPlaces(After(events), x) >= After(events).accepted[x]
    ensures RowBalanced(After(events)) <==> forall x :: SettledFor(events, x)
    ensures forall x :: HasRow(After(events).table, x) <==> Happened(events, x, Inserts)
  {
    hide After, Happened, Waiting, HasRow;
    AlwaysTraced(events);
    forall x
      ensures RowPlaces(After(events), x) >= After(events).accepted[x]
      ensures RowPlaces(After(events), x) == After(events).accepted[x] <==> SettledFor(events, x)
      ensures HasRow(After(events).table, x) <==> Happened(events, x, Inserts)
    {
      assert TracedFor(events, x);
    }
  }

  // ----- runs that are not balanced -----

  /** One accepted entry in the first flush. */
  function OneInFlight(entry: Entry): State {
    EMPTY_WRITER.(flushes := map[0 := [entry]], nextFlush := 1, accepted := multiset{entry})
  }

  lemma OneStarted(entry: Entry)
    ensures Step(Step(EMPTY_WRITER, Write(entry)), Tick) == OneInFlight(entry)
  {
    var written := Step(EMPTY_WRITER, Write(entry));
    assert written == EMPTY_WRITER.(buffer := [entry], accepted := multiset{entry}) by {
      assert [] + [entry] == [entry];
      assert multiset{} + multiset{entry} == multiset{entry};
    }
    assert map[][0 := [entry]] == map[0 := [entry]];
  }

  lemma AfterOneFlush(entry: Entry, e: Event)
    ensures After([Write(entry), Tick, e]) == Step(OneInFlight(entry), e)
  {
    hide After, Step;
    OneStarted(entry);
    AfterNothing();
    AfterNext([], Write(entry));
    AfterNext([Write(entry)], Tick);
    AfterNext([Write(entry), Tick], e);
    assert [] + [Write(entry)] == [Write(entry)];
    assert [Write(entry)] + [Tick] == [Write(entry), Tick];
    assert [Write(entry), Tick] + [e] == [Write(entry), Tick, e];
  }

  lemma AfterNothing()
    ensures After([]) == EMPTY_WRITER
  {
  }

  lemma FirstEnds(entry: Entry, outcome: Outcome)
    requires Possible([entry], outcome) && outcome.inserted
    ensures var s, t := OneInFlight(entry), Step(OneInFlight(entry), Finish(0, outcome));
            && t.flushes == map[] && t.nextFlush == 1 && t.dropped == 0 && t.accepted == multiset{entry}
            && t.buffer == (if outcome.failed then [entry] else []) && t.discarded == multiset{}
            && t.inserted == multiset{entry} && t.table == map[entry.id := entry]
            && t.logged == multiset([entry][..outcome.logged])
  {
    assert [entry][..|[entry]| - 1] == [];
    assert Inserted(map[], [entry]) == map[entry.id := entry];
    assert OneInFlight(entry).flushes - {0} == map[];
    assert [entry] + [] == [entry];
  }

  /** An insert that committed although its reply was lost, so that the entry was logged too: one accepted entry is
      counted twice, in the table and in the log. */
  lemma LostReplyRepeats(entry: Entry)
    ensures var s := After([Write(entry), Tick, Finish(0, Outcome(true, 1, false))]);
            && s.accepted[entry] == 1 && Places(s, entry) == 2 && RowPlaces(s, entry) == 2
            && s.buffer == [] && s.flushes == map[]
  {
    hide After, Step;
    AfterOneFlush(entry, Finish(0, Outcome(true, 1, false)));
    FirstEnds(entry, Outcome(true, 1, false));
    assert [entry][..1] == [entry];
    NothingInFlight(1, entry);
  }

  lemma SecondEnds(s: State, entry: Entry)
    requires s.buffer == [entry] && s.flushes == map[] && s.inserted == multiset{entry}
    requires s.table == map[entry.id := entry] && s.nextFlush == 1
    ensures var t := Step(Step(s, Tick), Finish(1, Outcome(true, 0, false)));
            && t == s.(buffer := [], nextFlush := 2, inserted := multiset{entry, entry}, logged := t.logged)
            && t.logged == s.logged
  {
    var ticked := Step(s, Tick);
    assert ticked.flushes == map[1 := [entry]];
    assert [entry][..|[entry]| - 1] == [];
    assert Inserted(s.table, [entry]) == s.table;
    assert ticked.flushes - {1} == map[];
  }

  /** An insert that committed before the flush failed, and was made again: two deliveries, but one row, and the run
      ends balanced for the table. */
  lemma SecondInsertKeepsOneRow(entry: Entry)
    ensures var s := After([Write(entry), Tick, Finish(0, Outcome(true, 0, true)), Tick, Finish(1, Outcome(true, 0, false))]);
            && s.accepted[entry] == 1 && s.inserted[entry] == 2 && s.table == map[entry.id := entry]
            && Places(s, entry) == 2 && RowPlaces(s, entry) == 1 && s.buffer == [] && s.flushes == map[]
  {
    hide After, Step;
    var first := [Write(entry), Tick, Finish(0, Outcome(true, 0, true))];
    AfterOneFlush(entry, Finish(0, Outcome(true, 0, true)));
    FirstEnds(entry, Outcome(true, 0, true));
    SecondEnds(After(first), entry);
    AfterNext(first, Tick);
    AfterNext(first + [Tick], Finish(1, Outcome(true, 0, false)));
    assert first + [Tick] + [Finish(1, Outcome(true, 0, false))] ==
           [Write(entry), Tick, Finish(0, Outcome(true, 0, true)), Tick, Finish(1, Outcome(true, 0, false))];
    NothingInFlight(2, entry);
  }

  lemma {:induction false} NothingInFlight(n: nat, x: Entry)
    ensures InFlight(map[], n, x) == 0
  {
    if n > 0 { NothingInFlight(n - 1, x); }
  }

  function Writes(events: seq<Event>): nat {
    if events == [] then 0
    else Writes(events[..|events| - 1]) + (if events[|events| - 1].Write? then 1 else 0)
  }

  /** Every write is either accepted or counted as dropped. */
  lemma {:induction false} EveryWriteIsCounted(events: seq<Event>)
    ensures |After(events).accepted| + After(events).dropped == Writes(events)
  {
    if events != [] { EveryWriteIsCounted(events[..|events| - 1]); }
  }

  /** A write is dropped exactly when 10000 entries wait in the buffer; otherwise it is accepted, and it starts a flush
      of everything exactly when it fills the buffer to 100 entries or more. */
  lemma WriteByLength(s: State, entry: Entry)
    requires Numbered(s)
    ensures var t := Step(s, Write(entry));
            && (t.dropped == s.dropped + 1 <==> |s.buffer| >= 10000)
            && (|s.buffer| >= 10000 ==> t == s.(dropped := t.dropped))
            && (|s.buffer| < 10000 ==> t.accepted == s.accepted + multiset{entry} && t.dropped == s.dropped)
            && (|s.buffer| < 99 ==> t.buffer == s.buffer + [entry] && t.flushes == s.flushes)
            && (99 <= |s.buffer| < 10000 ==>
                  t.buffer == [] && t.flushes == s.flushes[s.nextFlush := s.buffer + [entry]] && s.nextFlush !in s.flushes)
  {
  }

  /** Every five seconds the whole buffer is flushed, unless it is empty. */
  lemma TickTakesAll(s: State)
    requires Numbered(s)
    ensures Step(s, Tick).buffer == []
    ensures s.buffer != [] ==> s.nextFlush !in s.flushes && Step(s, Tick).flushes == s.flushes[s.nextFlush := s.buffer]
    ensures s.buffer == [] ==> Step(s, Tick) == s
  {
  }

  // ----- order -----

  function WriteAll(entries: seq<Entry>): (events: seq<Event>)
    ensures |events| == |entries| && forall i :: 0 <= i < |entries| ==> events[i] == Write(entries[i])
  {
    seq(|entries|, i requires 0 <= i < |entries| => Write(entries[i]))
  }

  lemma WriteStep(s: State, entry: Entry)
    requires |s.buffer| + 1 < BUFFER_SIZE
    ensures Step(s, Write(entry)).buffer == s.buffer + [entry]
    ensures Step(s, Write(entry)).flushes == s.flushes && Step(s, Write(entry)).nextFlush == s.nextFlush
  {
  }

  lemma {:induction false} WritesAppend(events: seq<Event>, entries: seq<Entry>)
    requires |After(events).buffer| + |entries| < BUFFER_SIZE
    ensures var s, t := After(events), After(events + WriteAll(entries));
            t.buffer == s.buffer + entries && t.flushes == s.flushes && t.nextFlush == s.nextFlush
    decreases |entries|
  {
    hide After, Step;
    if entries == [] {
      assert events + WriteAll(entries) == events;
    } else {
      var n := |entries| - 1;
      var before := events + WriteAll(entries[..n]);
      WritesAppend(events, entries[..n]);
      WriteStep(After(before), entries[n]);
      AfterNext(before, Write(entries[n]));
      assert events + WriteAll(entries) == before + [Write(entries[n])];
      assert After(events).buffer + entries == After(events).buffer + entries[..n] + [entries[n]];
    }
  }

  lemma TickStep(s: State)
    requires s.buffer != []
    ensures Step(s, Tick).buffer == [] && Step(s, Tick).flushes == s.flushes[s.nextFlush := s.buffer]
  {
  }

  lemma FailStep(s: State, flush: nat)
    requires flush in s.flushes && |s.buffer| + |s.flushes[flush]| <= MAX_BUFFER_SIZE
    ensures Step(s, Finish(flush, Outcome(false, 0, true))).buffer == s.flushes[flush] + s.buffer
  {
  }

  /** When a flush fails, its batch goes back in front of what was written meanwhile, so the order of writing is
      kept as long as no other flush starts in between. */
  lemma FailedFlushKeepsOrder(events: seq<Event>, entries: seq<Entry>)
    requires After(events).buffer != [] && |entries| < BUFFER_SIZE
    requires |After(events).buffer| + |entries| <= MAX_BUFFER_SIZE
    ensures var s := After(events);
            After(events + [Tick] + WriteAll(entries) + [Finish(s.nextFlush, Outcome(false, 0, true))]).buffer
            == s.buffer + entries
  {
    hide After, Step;
    var s := After(events);
    TickStep(s);
    AfterNext(events, Tick);
    WritesAppend(events + [Tick], entries);
    var written := events + [Tick] + WriteAll(entries);
    FailStep(After(written), s.nextFlush);
    AfterNext(written, Finish(s.nextFlush, Outcome(false, 0, true)));
    assert [] + entries == entries;
  }

  // ----- bounds -----

  lemma {:induction false} BufferIsBounded(events: seq<Event>)
    ensures |After(events).buffer| <= 10000
  {
    if events != [] { BufferIsBounded(events[..|events| - 1]); }
  }

  ghost predicate NoFailure(events: seq<Event>) {
    forall e :: e in events ==> (e.Finish? ==> !e.outcome.failed)
  }

  ghost predicate Small(s: State) {
    && |s.buffer| < 100
    && (forall k :: k in s.flushes ==> 1 <= |s.flushes[k]| <= 100)
    && s.dropped == 0 && s.discarded == multiset{}
  }

  lemma SmallStep(s: State, e: Event)
    requires Small(s) && (e.Finish? ==> !e.outcome.failed)
    ensures Small(Step(s, e))
  {
    if e.Finish? && e.flush in s.flushes && Possible(s.flushes[e.flush], e.outcome) {
      var t := Step(s, e);
      assert t.buffer == s.buffer && t.flushes == s.flushes - {e.flush};
    }
  }

  /** Without a failed flush, every batch has between 1 and 100 entries and no entry is dropped or discarded. */
  lemma {:induction false} SmallBatchesWithoutFailure(events: seq<Event>)
    requires NoFailure(events)
    ensures Small(After(events))
  {
    if events != [] {
      var e := events[|events| - 1];
      assert e in events;
      assert NoFailure(events[..|events| - 1]);
      hide Small, Step;
      SmallBatchesWithoutFailure(events[..|events| - 1]);
      SmallStep(After(events[..|events| - 1]), e);
    }
  }

  // ----- the insert statement -----

  datatype Cell = Text(value: string) | Null

  function OrNull(value: string): Cell {
    if value == "" then Null else Text(value)
  }

  const COLUMNS: nat := 12

  /** The cells of an entry in the order of the insert's column list. */
  function Row(e: Entry): (row: seq<Cell>)
    ensures |row| == COLUMNS
  {
    [Text(e.id), Text(e.userId), OrNull(e.orgId), OrNull(e.workflowId), Text(e.action), Text(e.resourceType),
     Text(e.resourceRef), Text(e.resourceScope), Text(e.result), Text(e.detail), OrNull(e.traceId), Text(e.occurredAt)]
  }

  /** Placeholder `$p` of column `j` in row `i`, counted from 1, refers to that column of entry `i`. */
  ghost predicate CellPlaced(values: seq<Cell>, p: nat, i: nat, j: nat, entry: Entry)
    requires j < COLUMNS
  {
    p == COLUMNS * i + j + 1 && p <= |values| && values[p - 1] == Row(entry)[j]
  }

  ghost predicate RowPlaced(values: seq<Cell>, placeholders: seq<nat>, i: nat, entry: Entry) {
    |placeholders| == COLUMNS && forall j :: 0 <= j < COLUMNS ==> CellPlaced(values, placeholders[j], i, j, entry)
  }

  method BuildInsert(entries: seq<Entry>) returns (values: seq<Cell>, placeholders: seq<seq<nat>>)
    ensures |values| == COLUMNS * |entries| && |placeholders| == |entries|
    ensures forall i :: 0 <= i < |entries| ==> RowPlaced(values, placeholders[i], i, entries[i])
  {
    values, placeholders := [], [];
    for i := 0 to |entries|
      invariant |values| == COLUMNS * i && |placeholders| == i
      invariant forall m :: 0 <= m < i ==> RowPlaced(values, placeholders[m], m, entries[m])
    {
      var offset := i * COLUMNS;
      var row := [offset + 1, offset + 2, offset + 3, offset + 4, offset + 5, offset + 6,
                  offset + 7, offset + 8, offset + 9, offset + 10, offset + 11, offset + 12];
      forall m | 0 <= m < i ensures RowPlaced(values + Row(entries[i]), placeholders[m], m, entries[m]) {
        RowStaysPlaced(values, placeholders[m], m, entries[m], Row(entries[i]));
      }
      NewRowPlaced(values, row, i, entries[i]);
      placeholders := placeholders + [row];
      values := values + Row(entries[i]);
    }
  }

  /** The twelve columns of each entry by name; an organisation, workflow or trace that is not given is null. */
  lemma InsertColumns(values: seq<Cell>, placeholders: seq<nat>, i: nat, entry: Entry)
    requires RowPlaced(values, placeholders, i, entry)
    ensures |placeholders| == 12 && |values| >= 12 * i + 12
    ensures forall j :: 0 <= j < 12 ==> placeholders[j] == 12 * i + j + 1
    ensures values[12 * i] == Text(entry.id) && values[12 * i + 1] == Text(entry.userId)
    ensures values[12 * i + 2] == (if entry.orgId == "" then Null else Text(entry.orgId))
    ensures values[12 * i + 3] == (if entry.workflowId == "" then Null else Text(entry.workflowId))
    ensures values[12 * i + 4] == Text(entry.action) && values[12 * i + 5] == Text(entry.resourceType)
    ensures values[12 * i + 6] == Text(entry.resourceRef) && values[12 * i + 7] == Text(entry.resourceScope)
    ensures values[12 * i + 8] == Text(entry.result) && values[12 * i + 9] == Text(entry.detail)
    ensures values[12 * i + 10] == (if entry.traceId == "" then Null else Text(entry.traceId))
    ensures values[12 * i + 11] == Text(entry.occurredAt)
  {
    forall j | 0 <= j < COLUMNS ensures CellPlaced(values, placeholders[j], i, j, entry) {
    }
    assert CellPlaced(values, placeholders[0], i, 0, entry) && CellPlaced(values, placeholders[1], i, 1, entry);
    assert CellPlaced(values, placeholders[2], i, 2, entry) && CellPlaced(values, placeholders[3], i, 3, entry);
    assert CellPlaced(values, placeholders[4], i, 4, entry) && CellPlaced(values, placeholders[5], i, 5, entry);
    assert CellPlaced(values, placeholders[6], i, 6, entry) && CellPlaced(values, placeholders[7], i, 7, entry);
    assert CellPlaced(values, placeholders[8], i, 8, entry) && CellPlaced(values, placeholders[9], i, 9, entry);
    assert CellPlaced(values, placeholders[10], i, 10, entry) && CellPlaced(values, placeholders[11], i, 11, entry);
  }

  lemma RowStaysPlaced(values: seq<Cell>, placeholders: seq<nat>, i: nat, entry: Entry, more: seq<Cell>)
    requires RowPlaced(values, placeholders, i, entry)
    ensures RowPlaced(values + more, placeholders, i, entry)
  {
    hide Row;
    forall j | 0 <= j < COLUMNS ensures CellPlaced(values + more, placeholders[j], i, j, entry) {
      assert CellPlaced(values, placeholders[j], i, j, entry);
    }
  }

  lemma NewRowPlaced(values: seq<Cell>, placeholders: seq<nat>, i: nat, entry: Entry)
    requires |values| == COLUMNS * i && |placeholders| == COLUMNS
    requires forall j :: 0 <= j < COLUMNS ==> placeholders[j] == COLUMNS * i + j + 1
    ensures RowPlaced(values + Row(entry), placeholders, i, entry)
  {
    hide Row;
    forall j | 0 <= j < COLUMNS ensures CellPlaced(values + Row(entry), placeholders[j], i, j, entry) {
    }
  }

  // ----- the writer -----

  /** The writer as it keeps its fields; the ghost fields record the flushes under way and the history. */
  class AuditWriter {
    var buffer: seq<Entry>
    var droppedEntries: nat
    ghost var history: State

    ghost function View(): State
      reads this
    {
      history.(buffer := buffer, dropped := droppedEntries)
    }

    constructor ()
      ensures View() == EMPTY_WRITER
    {
      buffer, droppedEntries, history := [], 0, EMPTY_WRITER;
    }

    method WriteEntry(entry: Entry) returns (batch: seq<Entry>)
      modifies this
      ensures View() == Step(old(View()), Write(entry))
      ensures batch != [] ==> View().flushes == old(View().flushes)[old(View().nextFlush) := batch]
    {
      batch := [];
      if |buffer| >= MAX_BUFFER_SIZE {
        droppedEntries := droppedEntries + 1;
        return;
      }
      buffer := buffer + [entry];
      history := history.(accepted := history.accepted + multiset{entry});
      if |buffer| >= BUFFER_SIZE {
        batch := BeginFlush();
      }
    }

    /** The synchronous part of a flush: it takes the whole buffer. */
    method BeginFlush() returns (batch: seq<Entry>)
      modifies this
      ensures View() == Flush(old(View()))
      ensures batch == old(buffer)
    {
      batch := buffer;
      if buffer != [] {
        history := history.(flushes := history.flushes[history.nextFlush := batch], nextFlush := history.nextFlush + 1);
        buffer := [];
      }
    }

    /** The end of a flush, at any later time. */
    method FinishFlush(ghost flush: nat, batch: seq<Entry>, outcome: Outcome)
      requires flush in View().flushes && View().flushes[flush] == batch && Possible(batch, outcome)
      modifies this
      ensures View() == Step(old(View()), Finish(flush, outcome))
    {
      ghost var done := EndFlush(View(), flush, outcome);
      if outcome.failed {
        if |buffer| + |batch| <= MAX_BUFFER_SIZE {
          buffer := batch + buffer;
        }
      }
      history := done;
    }
  }
}
