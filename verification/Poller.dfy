/** The poller (indexer/src/poller.ts): pages of chain events folded in one transaction with the cursor.
    The chain log grows, fetches and transactions fail, and the process may die between any two steps. */
module Poller {
  import opened Base
  import opened Handlers

  /** What a commit makes durable. */
  datatype Db = Db(tables: Tables, cursor: Option<int>)

  /** The stored cursor, zero without a row. */
  function CursorOf(cursor: Option<int>): int { if cursor.Some? then cursor.value else 0 }

  function SavedCursor(cursor: Option<int>, ledger: int): Option<int> {
    Some(if cursor.Some? then Larger(cursor.value, ledger) else ledger)
  }

  /** Highest ledger on a page. */
  function MaxLedger(events: seq<RawEvent>): int
    requires events != []
  {
    if |events| == 1 then events[0].ledger else Larger(MaxLedger(events[..|events| - 1]), events[|events| - 1].ledger)
  }

  /** That is one of the page's ledgers, and none is higher. */
  lemma {:induction false} MaxLedgerIs(events: seq<RawEvent>)
    requires events != []
    ensures forall i :: 0 <= i < |events| ==> events[i].ledger <= MaxLedger(events)
    ensures exists i :: 0 <= i < |events| && events[i].ledger == MaxLedger(events)
  {
    var n := |events| - 1;
    if n > 0 {
      var early := events[..n];
      MaxLedgerIs(early);
      var i :| 0 <= i < n && early[i].ledger == MaxLedger(early);
      assert events[i].ledger == MaxLedger(early) && forall k :: 0 <= k < n ==> events[k] == early[k];
    }
    assert events[n].ledger <= MaxLedger(events);
  }

  // ---- the chain ---------------------------------------------------------------------

  /** Events come in ledger order, from ledger one to `height`. */
  ghost predicate ChainOk(log: seq<RawEvent>, height: int) {
    && height >= 0
    && (forall i :: 0 <= i < |log| ==> 1 <= log[i].ledger <= height)
    && Ordered(log)
  }

  ghost predicate Ordered(log: seq<RawEvent>) {
    forall i, j :: 0 <= i < j < |log| ==> log[i].ledger <= log[j].ledger
  }

  /** Exactly the events with ledger at most `ledger`. */
  function UpTo(log: seq<RawEvent>, ledger: int): seq<RawEvent> {
    if log == [] then []
    else UpTo(log[..|log| - 1], ledger) + if log[|log| - 1].ledger <= ledger then [log[|log| - 1]] else []
  }

  /** In a chain these are a prefix, and `n` is its length if it separates the ledgers. */
  lemma {:induction false} UpToIsPrefix(log: seq<RawEvent>, ledger: int, n: nat)
    requires Ordered(log) && n <= |log|
    requires n > 0 ==> log[n - 1].ledger <= ledger
    requires n < |log| ==> ledger < log[n].ledger
    ensures UpTo(log, ledger) == log[..n]
    decreases |log|
  {
    if log != [] {
      var early := log[..|log| - 1];
      if n == |log| {
        if n >= 2 {
          assert log[n - 2].ledger <= log[n - 1].ledger;
        }
        UpToIsPrefix(early, ledger, n - 1);
        assert log[..n] == early[..n - 1] + [log[n - 1]];
      } else {
        assert log[n].ledger <= log[|log| - 1].ledger;
        UpToIsPrefix(early, ledger, n);
        assert early[..n] == log[..n];
      }
    }
  }

  /** Some `n` always separates the ledgers. */
  lemma {:induction false} UpToSplits(log: seq<RawEvent>, height: int, ledger: int) returns (n: nat)
    requires ChainOk(log, height)
    ensures n <= |log| && UpTo(log, ledger) == log[..n] && (n > 0 ==> log[n - 1].ledger <= ledger) && (n < |log| ==> ledger < log[n].ledger)
  {
    n := |log|;
    while n > 0 && log[n - 1].ledger > ledger
      invariant n <= |log| && (n < |log| ==> ledger < log[n].ledger)
    {
      n := n - 1;
    }
    UpToIsPrefix(log, ledger, n);
  }

  /** `page` holds the next events after ledger `from`, ending anywhere. */
  ghost predicate NextEvents(log: seq<RawEvent>, from: int, page: seq<RawEvent>) {
    UpTo(log, from) + page <= log
  }

  /** The page does not end inside a ledger. */
  ghost predicate Whole(log: seq<RawEvent>, from: int, page: seq<RawEvent>) {
    && NextEvents(log, from, page)
    && var n := |UpTo(log, from)| + |page|;
       page == [] || n == |log| || page[|page| - 1].ledger < log[n].ledger
  }

  lemma {:induction false} MaxOfSorted(page: seq<RawEvent>)
    requires page != [] && Ordered(page)
    ensures MaxLedger(page) == page[|page| - 1].ledger
  {
    if |page| > 1 {
      MaxOfSorted(page[..|page| - 1]);
    }
  }

  lemma PageIsSlice(log: seq<RawEvent>, read: seq<RawEvent>, page: seq<RawEvent>)
    requires Ordered(log) && read + page <= log
    ensures page == log[|read|..|read| + |page|] && Ordered(page)
  {
    var slice := log[|read|..|read| + |page|];
    assert (read + page)[|read|..] == page;
    assert log[..|read| + |page|] == read + page;
    assert slice == log[..|read| + |page|][|read|..];
  }

  lemma MaxIsLast(log: seq<RawEvent>, height: int, from: int, page: seq<RawEvent>)
    requires ChainOk(log, height) && NextEvents(log, from, page) && page != []
    ensures MaxLedger(page) == page[|page| - 1].ledger == log[|UpTo(log, from)| + |page| - 1].ledger
  {
    hide UpTo, MaxLedger, Ordered;
    PageIsSlice(log, UpTo(log, from), page);
    MaxOfSorted(page);
  }

  /** Every event of a page is newer than the cursor it was fetched from. */
  lemma PageIsNew(log: seq<RawEvent>, height: int, from: int, page: seq<RawEvent>)
    requires ChainOk(log, height) && NextEvents(log, from, page) && page != []
    ensures from < page[|page| - 1].ledger <= height
  {
    var n := UpToSplits(log, height, from);
    var last := |UpTo(log, from)| + |page| - 1;
    assert (UpTo(log, from) + page)[last] == log[last];
    assert log[n].ledger <= log[last].ledger;
  }

  /** What has been ingested once the cursor stands at the end of the page: exactly the events up to the
      cursor if the page is whole, and too few of them if it cut a ledger. */
  lemma PageReachesCursorIff(log: seq<RawEvent>, height: int, from: int, page: seq<RawEvent>)
    requires ChainOk(log, height) && NextEvents(log, from, page) && page != []
    ensures UpTo(log, from) + page <= UpTo(log, MaxLedger(page))
    ensures UpTo(log, from) + page == UpTo(log, MaxLedger(page)) <==> Whole(log, from, page)
  {
    hide UpTo;
    MaxIsLast(log, height, from, page);
    var read := UpTo(log, from) + page;
    var n := UpToSplits(log, height, MaxLedger(page));
    assert read == log[..|read|];
    assert read == log[..n][..|read|];
    if Whole(log, from, page) {
      UpToIsPrefix(log, MaxLedger(page), |read|);
    }
  }

  /** New ledgers do not disturb what older cursors have read. */
  lemma {:induction false} UpToGrows(log: seq<RawEvent>, more: seq<RawEvent>, ledger: int)
    requires forall i :: 0 <= i < |more| ==> ledger < more[i].ledger
    ensures UpTo(log + more, ledger) == UpTo(log, ledger)
    decreases |more|
  {
    if more == [] {
      assert log + more == log;
    } else {
      assert (log + more)[..|log + more| - 1] == log + more[..|more| - 1];
      UpToGrows(log, more[..|more| - 1], ledger);
    }
  }

  // ---- the protocol ------------------------------------------------------------------

  /** Where the worker stands between two polls. */
  datatype Phase =
    | Idle
    | Started(from: int)
    | Fetched(page: seq<RawEvent>)
    | Ingesting(page: seq<RawEvent>, done: nat, work: Tables)
    | CursorSaved(work: Tables, cursor: Option<int>)

  datatype State = State(log: seq<RawEvent>, height: int, db: Db, phase: Phase)

  ghost predicate Init(s: State, start: Tables) {
    ChainOk(s.log, s.height) && s.db.tables == start && CursorOf(s.db.cursor) == 0 && s.phase == Idle
  }

  /** The chain closes more ledgers. */
  ghost predicate Grow(s: State, t: State) {
    exists more :: Grown(s, t, more)
  }

  ghost predicate Grown(s: State, t: State, more: seq<RawEvent>) {
    && t == s.(log := s.log + more, height := t.height)
    && s.height <= t.height
    && ChainOk(t.log, t.height)
    && forall i :: 0 <= i < |more| ==> s.height < more[i].ledger
  }

  ghost predicate ReadCursor(s: State, t: State) {
    s.phase.Idle? && t == s.(phase := Started(CursorOf(s.db.cursor)))
  }

  /** An answered fetch: an empty page ends the poll. */
  ghost predicate Fetch(s: State, t: State) {
    s.phase.Started? && exists page :: Whole(s.log, s.phase.from, page) && t == s.(phase := if page == [] then Idle else Fetched(page))
  }

  ghost predicate Begin(s: State, t: State) {
    s.phase.Fetched? && t == s.(phase := Ingesting(s.phase.page, 0, s.db.tables))
  }

  ghost predicate IngestOne(s: State, t: State) {
    && s.phase.Ingesting? && s.phase.done < |s.phase.page|
    && var r := IngestEvent(s.phase.work, s.phase.page[s.phase.done]);
       r.Ok? && t == s.(phase := s.phase.(done := s.phase.done + 1, work := r.value))
  }

  ghost predicate SaveCursorStep(s: State, t: State) {
    && s.phase.Ingesting? && s.phase.page != [] && s.phase.done == |s.phase.page|
    && t == s.(phase := CursorSaved(s.phase.work, SavedCursor(s.db.cursor, MaxLedger(s.phase.page))))
  }

  ghost predicate Commit(s: State, t: State) {
    s.phase.CursorSaved? && t == s.(db := Db(s.phase.work, s.phase.cursor), phase := Idle)
  }

  /** A failed fetch, a rollback or a dead process: whatever was not committed is gone. */
  ghost predicate GiveUp(s: State, t: State) {
    t == s.(phase := Idle)
  }

  ghost predicate Step(s: State, t: State) {
    Grow(s, t) || ReadCursor(s, t) || Fetch(s, t) || Begin(s, t) || IngestOne(s, t) || SaveCursorStep(s, t) || Commit(s, t) || GiveUp(s, t)
  }

  /** The tables hold the fold of exactly the events up to the cursor. */
  ghost predicate Exact(log: seq<RawEvent>, db: Db, start: Tables) {
    IngestAll(start, UpTo(log, CursorOf(db.cursor))) == Ok(db.tables)
  }

  ghost predicate PhaseOk(s: State) {
    match s.phase
    case Idle => true
    case Started(from) => from == CursorOf(s.db.cursor)
    case Fetched(page) => page != [] && Whole(s.log, CursorOf(s.db.cursor), page)
    case Ingesting(page, done, work) =>
      && page != [] && Whole(s.log, CursorOf(s.db.cursor), page)
      && done <= |page| && IngestAll(s.db.tables, page[..done]) == Ok(work)
    case CursorSaved(work, cursor) =>
      exists page :: && page != [] && Whole(s.log, CursorOf(s.db.cursor), page)
                     && IngestAll(s.db.tables, page) == Ok(work)
                     && cursor == SavedCursor(s.db.cursor, MaxLedger(page))
  }

  ghost predicate Inv(s: State, start: Tables) {
    && ChainOk(s.log, s.height)
    && 0 <= CursorOf(s.db.cursor) <= s.height
    && Exact(s.log, s.db, start)
    && PhaseOk(s)
  }

  /** Committing an ingested whole page keeps tables and cursor in step, and moves the cursor. */
  lemma CommitKeepsExact(log: seq<RawEvent>, height: int, db: Db, start: Tables, page: seq<RawEvent>)
    requires ChainOk(log, height) && 0 <= CursorOf(db.cursor) && Exact(log, db, start)
    requires page != [] && Whole(log, CursorOf(db.cursor), page) && IngestAll(db.tables, page).Ok?
    ensures var after := Db(IngestAll(db.tables, page).value, SavedCursor(db.cursor, MaxLedger(page)));
            Exact(log, after, start) && CursorOf(db.cursor) < CursorOf(after.cursor) == MaxLedger(page) <= height
  {
    hide UpTo, IngestAll;
    var from := CursorOf(db.cursor);
    PageIsNew(log, height, from, page);
    MaxIsLast(log, height, from, page);
    PageReachesCursorIff(log, height, from, page);
    IngestAllSplits(start, UpTo(log, from), page);
  }

  lemma GrowthKeepsWhole(s: State, t: State, more: seq<RawEvent>, page: seq<RawEvent>)
    requires Grown(s, t, more) && ChainOk(s.log, s.height) && CursorOf(s.db.cursor) <= s.height
    requires Whole(s.log, CursorOf(s.db.cursor), page)
    ensures Whole(t.log, CursorOf(s.db.cursor), page)
  {
    var from := CursorOf(s.db.cursor);
    UpToGrows(s.log, more, from);
    var n := |UpTo(s.log, from)| + |page|;
    if page != [] {
      PageIsNew(s.log, s.height, from, page);
      if n < |t.log| && n == |s.log| {
        assert t.log[n] == more[0];
      }
    }
  }

  lemma GrowKeepsInv(s: State, t: State, start: Tables)
    requires Inv(s, start) && Grow(s, t)
    ensures Inv(t, start) && t.db == s.db
  {
    hide UpTo, IngestAll, Whole, ChainOk;
    var more :| Grown(s, t, more);
    UpToGrows(s.log, more, CursorOf(s.db.cursor));
    match s.phase {
      case Fetched(page) => GrowthKeepsWhole(s, t, more, page);
      case Ingesting(page, _, _) => GrowthKeepsWhole(s, t, more, page);
      case CursorSaved(work, cursor) =>
        var page :| page != [] && Whole(s.log, CursorOf(s.db.cursor), page) && IngestAll(s.db.tables, page) == Ok(work)
                    && cursor == SavedCursor(s.db.cursor, MaxLedger(page));
        GrowthKeepsWhole(s, t, more, page);
      case _ =>
    }
  }

  lemma IngestOneKeepsInv(s: State, t: State, start: Tables)
    requires Inv(s, start) && IngestOne(s, t)
    ensures Inv(t, start)
  {
    hide UpTo, IngestEvent, Whole, ChainOk;
    var k := s.phase.done;
    assert s.phase.page[..k + 1][..k] == s.phase.page[..k];
  }

  /** Every step keeps the invariant and never moves the cursor back. */
  lemma StepKeepsInv(s: State, t: State, start: Tables)
    requires Inv(s, start) && Step(s, t)
    ensures Inv(t, start) && CursorOf(s.db.cursor) <= CursorOf(t.db.cursor)
  {
    hide UpTo, Whole, ChainOk, IngestOne, Grow, IngestAll, IngestEvent, MaxLedger;
    if Grow(s, t) {
      GrowKeepsInv(s, t, start);
    } else if IngestOne(s, t) {
      IngestOneKeepsInv(s, t, start);
      IngestOneKeepsDb(s, t);
    } else if Begin(s, t) {
      assert s.phase.page[..0] == [];
      assert IngestAll(s.db.tables, []) == Ok(s.db.tables) by { IngestNothing(s.db.tables); }
    } else if SaveCursorStep(s, t) {
      assert s.phase.page[..|s.phase.page|] == s.phase.page;
    } else if Commit(s, t) {
      var page :| page != [] && Whole(s.log, CursorOf(s.db.cursor), page) && IngestAll(s.db.tables, page) == Ok(s.phase.work)
                  && s.phase.cursor == SavedCursor(s.db.cursor, MaxLedger(page));
      CommitKeepsExact(s.log, s.height, s.db, start, page);
    }
  }

  lemma IngestNothing(t: Tables)
    ensures IngestAll(t, []) == Ok(t)
  {
  }

  lemma IngestOneKeepsDb(s: State, t: State)
    requires IngestOne(s, t)
    ensures t.db == s.db && t.log == s.log && t.height == s.height
  {
  }

  /** A run of the worker beside the chain. */
  ghost predicate Run(states: seq<State>, start: Tables) {
    && states != []
    && if |states| == 1 then Init(states[0], start)
       else Run(states[..|states| - 1], start) && Step(states[|states| - 2], states[|states| - 1])
  }

  /** In every state of every run the tables are the fold of exactly the log events at or below the cursor,
      and the cursor never goes back. */
  lemma {:induction false} RunIsExact(states: seq<State>, start: Tables, i: nat, j: nat)
    requires Run(states, start) && i <= j < |states|
    ensures Inv(states[i], start) && Inv(states[j], start)
    ensures Exact(states[j].log, states[j].db, start)
    ensures CursorOf(states[i].db.cursor) <= CursorOf(states[j].db.cursor)
    decreases |states|
  {
    hide Step, ChainOk, PhaseOk, UpTo;
    var n := |states| - 1;
    if n == 0 {
      InitIsExact(states[0], start);
    } else if j < n {
      RunIsExact(states[..n], start, i, j);
    } else {
      RunIsExact(states[..n], start, if i < n then i else n - 1, n - 1);
      StepKeepsInv(states[n - 1], states[n], start);
    }
  }

  lemma InitIsExact(s: State, start: Tables)
    requires Init(s, start)
    ensures Inv(s, start)
  {
    hide UpTo;
    UpToIsPrefix(s.log, 0, 0);
    assert s.log[..0] == [];
    IngestNothing(start);
  }

  /** An event that cannot be folded after those before it stops the cursor for good, in every run. */
  lemma BadEventBlocks(states: seq<State>, start: Tables, i: nat, k: nat)
    requires Run(states, start) && i < |states| && k < |states[i].log|
    requires IngestAll(start, states[i].log[..k + 1]).Err?
    ensures CursorOf(states[i].db.cursor) < states[i].log[k].ledger
  {
    hide IngestAll, UpTo, PhaseOk, Run;
    var s := states[i];
    RunIsExact(states, start, i, i);
    var n := UpToSplits(s.log, s.height, CursorOf(s.db.cursor));
    assert n < k ==> s.log[n].ledger <= s.log[k].ledger;
    if s.log[k].ledger <= CursorOf(s.db.cursor) {
      assert s.log[..n] == s.log[..k + 1] + s.log[k + 1..n];
      IngestAllSplits(start, s.log[..k + 1], s.log[k + 1..n]);
    }
  }

  /** One such event is a withdrawal from a stream that nothing before it has named. */
  lemma OrphanWithdrawalBlocks(states: seq<State>, i: nat, k: nat)
    requires Run(states, NoRows()) && i < |states| && k < |states[i].log|
    requires states[i].log[k].eventType.StreamWithdrawn?
    requires forall j :: 0 <= j < k ==> !Opens(states[i].log[j], states[i].log[k].data.streamId)
    ensures CursorOf(states[i].db.cursor) < states[i].log[k].ledger
  {
    hide Run, Opens, IngestAll, Proposed;
    var log := states[i].log;
    WithdrawalNeedsItsStream(log[..k], log[k]);
    assert forall j :: 0 <= j < k ==> log[..k][j] == log[j];
    assert log[..k] + [log[k]] == log[..k + 1];
    BadEventBlocks(states, NoRows(), i, k);
  }

  /** With a page that may cut a ledger: what is ingested is still a prefix of the log, but it is all the
      events up to the new cursor exactly when the page is whole. */
  lemma CutPageLosesEvents(log: seq<RawEvent>, height: int, db: Db, start: Tables, page: seq<RawEvent>)
    requires ChainOk(log, height) && 0 <= CursorOf(db.cursor) && Exact(log, db, start)
    requires page != [] && NextEvents(log, CursorOf(db.cursor), page) && IngestAll(db.tables, page).Ok?
    ensures var read := UpTo(log, CursorOf(db.cursor)) + page;
            var cursor := CursorOf(SavedCursor(db.cursor, MaxLedger(page)));
            && IngestAll(start, read) == IngestAll(db.tables, page)
            && read <= UpTo(log, cursor)
            && (read == UpTo(log, cursor) <==> Whole(log, CursorOf(db.cursor), page))
  {
    hide UpTo, IngestAll;
    var from := CursorOf(db.cursor);
    PageIsNew(log, height, from, page);
    MaxIsLast(log, height, from, page);
    PageReachesCursorIff(log, height, from, page);
    IngestAllSplits(start, UpTo(log, from), page);
  }

  // ---- pages that may cut a ledger ---------------------------------------------------

  /** An event is among those up to a ledger exactly if its position is below their number. */
  lemma UpToCounts(log: seq<RawEvent>, height: int, ledger: int, k: nat)
    requires ChainOk(log, height) && k < |log|
    ensures k < |UpTo(log, ledger)| <==> log[k].ledger <= ledger
    ensures |UpTo(log, ledger)| <= |log|
  {
    hide UpTo;
    var n := UpToSplits(log, height, ledger);
    assert k < n - 1 ==> log[k].ledger <= log[n - 1].ledger;
    assert n < k ==> log[n].ledger <= log[k].ledger;
  }

  function Indices(from: nat, n: nat): seq<nat> { seq(n, i requires 0 <= i => from + i) }

  ghost predicate Within(indices: seq<nat>, log: seq<RawEvent>) {
    forall k :: 0 <= k < |indices| ==> indices[k] < |log|
  }

  /** The events at the given positions. */
  function Pick(log: seq<RawEvent>, indices: seq<nat>): seq<RawEvent>
    requires forall k :: 0 <= k < |indices| ==> indices[k] < |log|
  {
    seq(|indices|, k requires 0 <= k < |indices| => log[indices[k]])
  }

  /** A state with its history: the positions whose events were committed, those of the page under way, and
      whether every committed page was whole. */
  datatype Trace = Trace(state: State, read: seq<nat>, page: seq<nat>, whole: bool)

  /** A fetch answered with any number of the next events. */
  ghost predicate FetchSome(x: Trace, y: Trace, page: seq<RawEvent>) {
    && x.state.phase.Started?
    && NextEvents(x.state.log, x.state.phase.from, page)
    && y == Trace(x.state.(phase := if page == [] then Idle else Fetched(page)), x.read,
                  Indices(|UpTo(x.state.log, x.state.phase.from)|, |page|), x.whole)
  }

  ghost predicate CommitPage(x: Trace, y: Trace) {
    && Commit(x.state, y.state)
    && Within(x.page, x.state.log)
    && y == Trace(y.state, x.read + x.page, [], x.whole && Whole(x.state.log, CursorOf(x.state.db.cursor), Pick(x.state.log, x.page)))
  }

  ghost predicate OtherStep(s: State, t: State) {
    Grow(s, t) || ReadCursor(s, t) || Begin(s, t) || IngestOne(s, t) || SaveCursorStep(s, t) || GiveUp(s, t)
  }

  ghost predicate TraceStep(x: Trace, y: Trace) {
    || (exists page :: FetchSome(x, y, page))
    || CommitPage(x, y)
    || (OtherStep(x.state, y.state) && y == x.(state := y.state))
  }

  ghost predicate TraceRun(xs: seq<Trace>, start: Tables) {
    && xs != []
    && if |xs| == 1 then Init(xs[0].state, start) && xs[0] == Trace(xs[0].state, [], [], true)
       else TraceRun(xs[..|xs| - 1], start) && TraceStep(xs[|xs| - 2], xs[|xs| - 1])
  }

  /** How many events the chain has up to the cursor. */
  ghost function Due(s: State): nat { |UpTo(s.log, CursorOf(s.db.cursor))| }

  /** The page under way is what follows the cursor. */
  ghost predicate Underway(x: Trace, page: seq<RawEvent>) {
    page != [] && NextEvents(x.state.log, CursorOf(x.state.db.cursor), page) && x.page == Indices(Due(x.state), |page|)
  }

  ghost predicate Ready(x: Trace, page: seq<RawEvent>, work: Tables, cursor: Option<int>) {
    && Underway(x, page) && IngestAll(x.state.db.tables, page) == Ok(work)
    && cursor == SavedCursor(x.state.db.cursor, MaxLedger(page))
  }

  ghost predicate TracePhaseOk(x: Trace) {
    match x.state.phase
    case Idle => true
    case Started(from) => from == CursorOf(x.state.db.cursor)
    case Fetched(page) => Underway(x, page)
    case Ingesting(page, done, work) => Underway(x, page) && done <= |page| && IngestAll(x.state.db.tables, page[..done]) == Ok(work)
    case CursorSaved(work, cursor) => exists page :: Ready(x, page, work, cursor)
  }

  /** Position `k` is up to the cursor and was never read. */
  ghost predicate Skipped(x: Trace, k: nat) { k < Due(x.state) && k !in x.read }

  /** The tables are the fold of the events read, which lie up to the cursor; they are all of those exactly if
      every page was whole. */
  ghost predicate TraceOk(x: Trace, start: Tables) {
    && ChainOk(x.state.log, x.state.height)
    && 0 <= CursorOf(x.state.db.cursor) <= x.state.height
    && Within(x.read, x.state.log)
    && IngestAll(start, Pick(x.state.log, x.read)) == Ok(x.state.db.tables)
    && (if x.whole then x.read == Indices(0, Due(x.state)) else exists k :: Skipped(x, k))
    && TracePhaseOk(x)
  }

  /** What a commit does to the record of what was read. */
  lemma CommitReads(x: Trace, y: Trace, page: seq<RawEvent>)
    requires ChainOk(x.state.log, x.state.height) && 0 <= CursorOf(x.state.db.cursor) && Within(x.read, x.state.log)
    requires x.state.phase.CursorSaved? && Ready(x, page, x.state.phase.work, x.state.phase.cursor)
    requires CommitPage(x, y)
    ensures Pick(x.state.log, x.page) == page
    ensures Within(y.read, y.state.log) && Pick(y.state.log, y.read) == Pick(x.state.log, x.read) + page
    ensures CursorOf(x.state.db.cursor) < CursorOf(y.state.db.cursor) <= y.state.height
    ensures Due(x.state) + |page| <= Due(y.state)
    ensures Due(x.state) + |page| == Due(y.state) <==> Whole(x.state.log, CursorOf(x.state.db.cursor), page)
  {
    hide UpTo, IngestAll, MaxLedger;
    var log, from := x.state.log, CursorOf(x.state.db.cursor);
    PageIsNew(log, x.state.height, from, page);
    MaxIsLast(log, x.state.height, from, page);
    PageIsSlice(log, UpTo(log, from), page);
    PageReachesCursorIff(log, x.state.height, from, page);
    assert Pick(log, x.page) == page;
    assert Pick(log, x.read + x.page) == Pick(log, x.read) + page;
    if Due(x.state) + |page| == Due(y.state) {
      assert UpTo(log, from) + page == UpTo(log, MaxLedger(page));
    }
  }

  /** What was skipped stays skipped, whatever the next step is. */
  lemma SkippedStays(x: Trace, y: Trace, start: Tables, k: nat)
    requires TraceOk(x, start) && TraceStep(x, y) && Skipped(x, k)
    ensures Skipped(y, k) && k < |x.state.log| && k < |y.state.log| && y.state.log[k] == x.state.log[k]
  {
    hide UpTo, IngestAll, MaxLedger, IngestOne, ChainOk, Whole;
    DueIsBounded(x.state);
    if CommitPage(x, y) {
      var page :| Ready(x, page, x.state.phase.work, x.state.phase.cursor);
      CommitReads(x, y, page);
    } else if Grow(x.state, y.state) {
      GrowKeepsDue(x.state, y.state);
    } else if IngestOne(x.state, y.state) {
      IngestOneKeepsDb(x.state, y.state);
    }
  }

  lemma DueIsBounded(s: State)
    requires ChainOk(s.log, s.height)
    ensures Due(s) <= |s.log|
  {
    var n := UpToSplits(s.log, s.height, CursorOf(s.db.cursor));
  }

  lemma GrowKeepsDue(s: State, t: State)
    requires Grow(s, t) && CursorOf(s.db.cursor) <= s.height
    ensures Due(t) == Due(s) && UpTo(t.log, CursorOf(s.db.cursor)) == UpTo(s.log, CursorOf(s.db.cursor))
    ensures t.db == s.db && t.phase == s.phase && s.log <= t.log && ChainOk(t.log, t.height) && s.height <= t.height
  {
    hide UpTo;
    var more :| Grown(s, t, more);
    UpToGrows(s.log, more, CursorOf(s.db.cursor));
  }

  lemma GrowKeepsTrace(x: Trace, y: Trace, start: Tables)
    requires TraceOk(x, start) && Grow(x.state, y.state) && y == x.(state := y.state)
    ensures TraceOk(y, start)
  {
    hide UpTo, IngestAll, MaxLedger, ChainOk;
    GrowKeepsDue(x.state, y.state);
    assert Pick(y.state.log, y.read) == Pick(x.state.log, x.read);
    if !x.whole {
      var k :| Skipped(x, k);
      assert Skipped(y, k);
    }
    if x.state.phase.CursorSaved? {
      var page :| Ready(x, page, x.state.phase.work, x.state.phase.cursor);
      assert Ready(y, page, y.state.phase.work, y.state.phase.cursor);
    }
  }

  lemma CommitKeepsTrace(x: Trace, y: Trace, start: Tables)
    requires TraceOk(x, start) && CommitPage(x, y)
    ensures TraceOk(y, start)
  {
    hide UpTo, IngestAll, MaxLedger, ChainOk, Whole;
    var page :| Ready(x, page, x.state.phase.work, x.state.phase.cursor);
    CommitReads(x, y, page);
    IngestAllSplits(start, Pick(x.state.log, x.read), page);
    if x.whole {
      assert y.read == Indices(0, Due(x.state) + |page|);
      assert !y.whole ==> Skipped(y, Due(x.state) + |page|);
    } else {
      var k :| Skipped(x, k);
      assert Skipped(y, k);
    }
  }

  lemma OtherKeepsTrace(x: Trace, y: Trace, start: Tables)
    requires TraceOk(x, start) && OtherStep(x.state, y.state) && y == x.(state := y.state)
    ensures TraceOk(y, start)
  {
    hide UpTo, Grow, IngestEvent, ChainOk, IngestAll;
    var s := x.state;
    if Grow(s, y.state) {
      GrowKeepsTrace(x, y, start);
    } else {
      if IngestOne(s, y.state) {
        IngestNext(s.db.tables, s.phase.page, s.phase.done);
      } else if Begin(s, y.state) {
        IngestNothing(s.db.tables);
        assert s.phase.page[..0] == [];
      } else if SaveCursorStep(s, y.state) {
        assert s.phase.page[..|s.phase.page|] == s.phase.page;
        assert Ready(y, s.phase.page, y.state.phase.work, y.state.phase.cursor);
      }
      if !x.whole {
        var k :| Skipped(x, k);
        assert Skipped(y, k);
      }
    }
  }

  lemma TraceStepKeeps(x: Trace, y: Trace, start: Tables)
    requires TraceOk(x, start) && TraceStep(x, y)
    ensures TraceOk(y, start) && CursorOf(x.state.db.cursor) <= CursorOf(y.state.db.cursor)
  {
    hide UpTo, IngestAll, OtherStep, CommitPage, MaxLedger, ChainOk;
    if CommitPage(x, y) {
      CommitKeepsTrace(x, y, start);
      CommitMovesOn(x, y, start);
    } else if OtherStep(x.state, y.state) && y == x.(state := y.state) {
      OtherKeepsTrace(x, y, start);
      OtherKeepsCursor(x.state, y.state);
    } else {
      var page :| FetchSome(x, y, page);
      if !x.whole {
        var k :| Skipped(x, k);
        assert Skipped(y, k);
      }
    }
  }

  lemma CommitMovesOn(x: Trace, y: Trace, start: Tables)
    requires TraceOk(x, start) && CommitPage(x, y)
    ensures CursorOf(x.state.db.cursor) <= CursorOf(y.state.db.cursor)
  {
    var page :| Ready(x, page, x.state.phase.work, x.state.phase.cursor);
    CommitReads(x, y, page);
  }

  lemma OtherKeepsCursor(s: State, t: State)
    requires OtherStep(s, t)
    ensures t.db == s.db
  {
    hide IngestEvent, ChainOk;
  }

  /** Over any run, with pages of any kind: the tables are the fold of exactly the events read; these are all
      events up to the cursor if and only if every committed page was whole; and a position passed over once
      is never read afterwards. */
  lemma {:induction false} SkippedForGood(xs: seq<Trace>, start: Tables, i: nat, j: nat)
    requires TraceRun(xs, start) && i <= j < |xs|
    ensures TraceOk(xs[i], start) && TraceOk(xs[j], start)
    ensures xs[j].whole <==> ReadAll(xs[j])
    ensures forall k: nat :: Skipped(xs[i], k) ==>
              Skipped(xs[j], k) && k < |xs[i].state.log| && k < |xs[j].state.log| && xs[j].state.log[k] == xs[i].state.log[k]
    decreases |xs|
  {
    hide TraceStep, ChainOk, TracePhaseOk, UpTo, IngestAll;
    var n := |xs| - 1;
    if n == 0 {
      TraceStarts(xs[0], start);
    } else if j < n {
      SkippedForGood(xs[..n], start, i, j);
    } else {
      SkippedForGood(xs[..n], start, if i < n then i else n - 1, n - 1);
      TraceStepKeeps(xs[n - 1], xs[n], start);
      if i < n {
        forall k: nat | Skipped(xs[i], k)
          ensures Skipped(xs[n], k) && k < |xs[n].state.log| && xs[n].state.log[k] == xs[i].state.log[k]
        {
          SkippedStays(xs[n - 1], xs[n], start, k);
        }
      } else {
        DueIsBounded(xs[n].state);
      }
    }
    WholeIff(xs[j], start);
  }

  /** Every event of the chain up to the cursor was read. */
  ghost predicate ReadAll(x: Trace) {
    forall k :: 0 <= k < |x.state.log| && x.state.log[k].ledger <= CursorOf(x.state.db.cursor) ==> k in x.read
  }

  lemma WholeIff(x: Trace, start: Tables)
    requires TraceOk(x, start)
    ensures x.whole <==> ReadAll(x)
  {
    hide UpTo, IngestAll, ChainOk, TracePhaseOk;
    if x.whole {
      forall k | 0 <= k < |x.state.log| && x.state.log[k].ledger <= CursorOf(x.state.db.cursor) ensures k in x.read {
        UpToCounts(x.state.log, x.state.height, CursorOf(x.state.db.cursor), k);
        assert x.read[k] == k;
      }
    } else {
      var k :| Skipped(x, k);
      DueIsBounded(x.state);
      UpToCounts(x.state.log, x.state.height, CursorOf(x.state.db.cursor), k);
    }
  }

  lemma TraceStarts(x: Trace, start: Tables)
    requires Init(x.state, start) && x == Trace(x.state, [], [], true)
    ensures TraceOk(x, start) && Due(x.state) == 0
  {
    hide UpTo;
    UpToIsPrefix(x.state.log, 0, 0);
    assert x.state.log[..0] == [];
    assert Pick(x.state.log, []) == [];
    IngestNothing(start);
  }

  lemma PauseAloneFolds(p: RawEvent)
    requires p.eventType.StreamPaused? && RowFits(Proposed(p))
    ensures IngestAll(NoRows(), [p]).Ok? && p.data.streamId in IngestAll(NoRows(), [p]).value.streams
    ensures IngestAll(NoRows(), [p]).value.streams[p.data.streamId].paused
  {
    assert [p][..0] == [];
    assert IngestAll(NoRows(), [p]) == IngestEvent(NoRows(), p);
  }

  /** Two events of one ledger, fetched one at a time: the resume is passed over, nothing is left to fetch,
      and the stream stays paused where the chain has it running. */
  lemma HalfALedgerIsLost(p: RawEvent, r: RawEvent, later: seq<RawEvent>)
    requires p.eventType.StreamPaused? && r.eventType.StreamResumed? && p.data.streamId == r.data.streamId
    requires 1 <= p.ledger == r.ledger && RowFits(Proposed(p)) && RowFits(Proposed(r))
    ensures ChainOk([p, r], p.ledger) && NextEvents([p, r], 0, [p]) && !Whole([p, r], 0, [p])
    ensures MaxLedger([p]) == p.ledger && UpTo([p, r], p.ledger) == [p, r]
    ensures IngestAll(NoRows(), [p]).Ok? && IngestAll(NoRows(), [p]).value.streams[p.data.streamId].paused
    ensures IngestAll(NoRows(), [p, r]).Ok? && !IngestAll(NoRows(), [p, r]).value.streams[p.data.streamId].paused
    ensures NextEvents([p, r], p.ledger, later) ==> later == []
  {
    hide IngestAll;
    StaleReplayPauses(p, r);
    PauseAloneFolds(p);
    assert MaxLedger([p]) == p.ledger;
    UpToIsPrefix([p, r], 0, 0);
    UpToIsPrefix([p, r], p.ledger, 2);
    assert [p, r][..2] == [p, r] && [p, r][..0] == [] && [] + [p] == [p];
    if NextEvents([p, r], p.ledger, later) {
      assert |[p, r] + later| <= 2;
    }
  }

  // ---- the code ----------------------------------------------------------------------

  /** The committed state after one poll. */
  ghost function PolledDb(db: Db, fetched: Option<seq<RawEvent>>, commits: bool): Db {
    if fetched.None? || fetched.value == [] || !commits then db
    else
      var r := IngestAll(db.tables, fetched.value);
      if r.Err? then db else Db(r.value, SavedCursor(db.cursor, MaxLedger(fetched.value)))
  }

  ghost function Stored(client: Client): Db
    reads client
  {
    Db(client.View(), client.cursor)
  }

  method GetCursor(client: Client) returns (ledger: int)
    ensures ledger == CursorOf(client.cursor)
  {
    ledger := match client.cursor
      case Some(l) => l
      case None => 0;
  }

  method SaveCursor(client: Client, ledger: int)
    modifies client`cursor
    ensures client.cursor == SavedCursor(old(client.cursor), ledger)
    ensures client.cursor.Some? && ledger <= client.cursor.value
    ensures match old(client.cursor)
            case None => client.cursor.value == ledger
            case Some(before) => before <= client.cursor.value && client.cursor.value in {before, ledger}
  {
    match client.cursor {
      case Some(l) =>
        if ledger > l {
          client.cursor := Some(ledger);
        }
      case None =>
        client.cursor := Some(ledger);
    }
  }

  /** Keeps and folds every event of a page, stopping at the first that fails. */
  method IngestPage(client: Client, events: seq<RawEvent>) returns (ok: bool)
    modifies client`raw, client`streams, client`withdrawals, client`votes
    ensures Follows(ok, IngestAll(old(client.View()), events), client.View())
  {
    hide IngestAll, FoldEvent;
    ghost var before := client.View();
    IngestNothing(before);
    for i := 0 to |events|
      invariant IngestAll(before, events[..i]) == Ok(client.View())
    {
      var ev := events[i];
      IngestNext(before, events, i);
      if !Fits(ev.ledger) {
        IngestFails(before, events, i);
        return false;
      }
      var key := RawKey(ev.ledger, ev.txHash, ev.eventType, ev.contractId);
      if key !in client.raw {
        client.raw := client.raw[key := ev.data];
      }
      var folded := client.Fold(ev);
      if !folded {
        IngestFails(before, events, i);
        return false;
      }
    }
    assert events[..|events|] == events;
    ok := true;
  }

  lemma IngestNext(t: Tables, events: seq<RawEvent>, i: nat)
    requires i < |events| && IngestAll(t, events[..i]).Ok?
    ensures IngestAll(t, events[..i + 1]) == IngestEvent(IngestAll(t, events[..i]).value, events[i])
  {
    assert events[..i + 1][..i] == events[..i];
  }

  lemma IngestFails(t: Tables, events: seq<RawEvent>, i: nat)
    requires i < |events| && IngestAll(t, events[..i + 1]).Err?
    ensures IngestAll(t, events).Err?
  {
    IngestAllSplits(t, events[..i + 1], events[i + 1..]);
    assert events == events[..i + 1] + events[i + 1..];
  }

  datatype Outcome = Failed | Nothing | Advanced(fetched: nat, nextLedger: int)

  /** One poll: the fetch is asked for the ledgers behind the cursor (and may fail); page and cursor are then
      committed together, and any failure rolls both back. */
  method PollOnce(client: Client, fetch: int -> Option<seq<RawEvent>>, commits: bool) returns (outcome: Outcome)
    modifies client
    ensures var fetched := fetch(CursorOf(old(client.cursor)) + 1);
            && Stored(client) == PolledDb(old(Stored(client)), fetched, commits)
            && outcome == if fetched.None? then Failed
                          else if fetched.value == [] then Nothing
                          else if commits && IngestAll(old(client.View()), fetched.value).Ok?
                          then Advanced(|fetched.value|, MaxLedger(fetched.value))
                          else Failed
    ensures !outcome.Advanced? ==> Stored(client) == old(Stored(client))
    ensures outcome.Advanced? ==>
              var events := fetch(CursorOf(old(client.cursor)) + 1).value;
              && IngestAll(old(client.View()), events) == Ok(client.View())
              && (forall i :: 0 <= i < |events| ==> events[i].ledger <= outcome.nextLedger)
              && (exists i :: 0 <= i < |events| && events[i].ledger == outcome.nextLedger)
              && client.cursor == Some(if old(client.cursor).Some? && old(client.cursor).value > outcome.nextLedger
                                       then old(client.cursor).value else outcome.nextLedger)
  {
    hide IngestAll;
    var from := GetCursor(client);
    var fetched := fetch(from + 1);
    if fetched.None? {
      return Failed;
    }
    var events := fetched.value;
    if events == [] {
      return Nothing;
    }
    var nextLedger := events[0].ledger;
    for i := 1 to |events|
      invariant nextLedger == MaxLedger(events[..i])
    {
      assert events[..i + 1][..i] == events[..i];
      nextLedger := Larger(nextLedger, events[i].ledger);
    }
    assert events[..|events|] == events;
    MaxLedgerIs(events);
    var raw, streams, withdrawals, votes, cursor := client.raw, client.streams, client.withdrawals, client.votes, client.cursor;
    var ok := IngestPage(client, events);
    if ok {
      SaveCursor(client, nextLedger);
    }
    if !ok || !commits {
      client.raw, client.streams, client.withdrawals, client.votes, client.cursor := raw, streams, withdrawals, votes, cursor;
      return Failed;
    }
    outcome := Advanced(|events|, nextLedger);
  }

  /** A poll fed with a whole page keeps tables and cursor in step. */
  lemma PollKeepsExact(log: seq<RawEvent>, height: int, db: Db, start: Tables, fetched: Option<seq<RawEvent>>, commits: bool)
    requires ChainOk(log, height) && 0 <= CursorOf(db.cursor) && Exact(log, db, start)
    requires fetched.Some? ==> Whole(log, CursorOf(db.cursor), fetched.value)
    ensures Exact(log, PolledDb(db, fetched, commits), start)
    ensures CursorOf(db.cursor) <= CursorOf(PolledDb(db, fetched, commits).cursor)
  {
    hide IngestAll, UpTo, Whole, ChainOk;
    if fetched.Some? && fetched.value != [] && commits && IngestAll(db.tables, fetched.value).Ok? {
      CommitKeepsExact(log, height, db, start, fetched.value);
    }
  }
}
