/** What the indexer's tables hold after any sequence of events (indexer/src/handlers.ts), told from the events
    alone and column by column. */
module Rows {
  import opened Base
  import opened Handlers

  // ---- the events that matter to a row -----------------------------------------------

  ghost predicate OnId(ev: RawEvent, id: string) { OnStream(ev.eventType) && ev.data.streamId == id }

  /** The `i`-th event is the first on stream `id`. */
  ghost predicate Opening(events: seq<RawEvent>, i: nat, id: string) {
    i < |events| && OnId(events[i], id) && forall j :: 0 <= j < i ==> !OnId(events[j], id)
  }

  /** Being newest means: every earlier event on the stream is of an earlier ledger. */
  lemma NewestIff(events: seq<RawEvent>)
    requires events != [] && OnStream(events[|events| - 1].eventType)
    ensures var ev := events[|events| - 1];
            IsNewest(events) <==> forall j :: 0 <= j < |events| - 1 && OnId(events[j], ev.data.streamId) ==> events[j].ledger < ev.ledger
  {
    hide Highest;
    var n := |events| - 1;
    var early, ev := events[..n], events[n];
    HighestIsAttained(early, ev.data.streamId);
    forall j | 0 <= j < n && OnId(events[j], ev.data.streamId)
      ensures Highest(early, ev.data.streamId).Some? && events[j].ledger <= Highest(early, ev.data.streamId).value
    {
      assert early[j] == events[j];
      HighestBounds(early, j);
    }
  }

  lemma {:induction false} HighestIsAttained(events: seq<RawEvent>, id: string)
    ensures Highest(events, id).Some? ==> exists j :: 0 <= j < |events| && OnId(events[j], id) && events[j].ledger == Highest(events, id).value
  {
    if events != [] {
      var n := |events| - 1;
      HighestIsAttained(events[..n], id);
      if Highest(events[..n], id).Some? {
        var j :| 0 <= j < n && OnId(events[..n][j], id) && events[..n][j].ledger == Highest(events[..n], id).value;
        assert OnId(events[j], id);
      }
      assert OnId(events[n], id) <==> OnId(events[|events| - 1], id);
    }
  }

  /** What the last event does to the row of stream `id`. */
  lemma LastEvent(events: seq<RawEvent>, id: string)
    requires events != [] && IngestAll(NoRows(), events).Ok?
    ensures var n := |events| - 1;
            var ev, before, after := events[n], IngestAll(NoRows(), events[..n]), IngestAll(NoRows(), events).value.streams;
            && before.Ok?
            && (id in before.value.streams <==> Highest(events[..n], id).Some?)
            && (OnId(ev, id) && id in before.value.streams ==> (IsNewest(events) <==> before.value.streams[id].updatedLedger < ev.ledger))
            && Lookup(after, id) == if !OnId(ev, id) then Lookup(before.value.streams, id)
                                    else if id in before.value.streams then Some(Merged(before.value.streams[id], ev)) else Some(Proposed(ev))
  {
    hide Merged, Proposed, Highest, PaidWhenNewest, IngestEvent;
    var n := |events| - 1;
    WithdrawnCountsNewest(events[..n], id);
    OneMoreEvent(IngestAll(NoRows(), events[..n]).value, events[n], id);
  }

  lemma {:induction false} NotYetOpen(events: seq<RawEvent>, id: string)
    requires forall j :: 0 <= j < |events| ==> !OnId(events[j], id)
    ensures Highest(events, id).None?
  {
    if events != [] {
      NotYetOpen(events[..|events| - 1], id);
      assert !OnId(events[|events| - 1], id);
    }
  }

  lemma {:induction false} OpenSince(events: seq<RawEvent>, i: nat, id: string)
    requires i < |events| && OnId(events[i], id)
    ensures Highest(events, id).Some?
  {
    HighestBounds(events, i);
  }

  /** An opening event is the last one, of a stream without a row so far, or opens what came before the last. */
  lemma OpeningSteps(events: seq<RawEvent>, i: nat, id: string)
    requires Opening(events, i, id)
    ensures var n := |events| - 1;
            if i == n then Highest(events[..n], id).None? else Opening(events[..n], i, id) && Highest(events[..n], id).Some?
  {
    hide Highest;
    var n := |events| - 1;
    if i == n {
      NotYetOpen(events[..n], id);
    } else {
      OpenSince(events[..n], i, id);
    }
  }

  // ---- stream rows -------------------------------------------------------------------

  /** Sender, token and rate are those of the first event. */
  lemma {:induction false} FixedByFirst(events: seq<RawEvent>, i: nat, id: string)
    requires IngestAll(NoRows(), events).Ok? && Opening(events, i, id)
    ensures var streams := IngestAll(NoRows(), events).value.streams;
            && id in streams && streams[id].sender == events[i].data.sender
            && streams[id].token == events[i].data.token && streams[id].rate == events[i].data.rate
  {
    hide Highest, IngestAll, IsNewest;
    LastEvent(events, id);
    OpeningSteps(events, i, id);
    if i < |events| - 1 {
      FixedByFirst(events[..|events| - 1], i, id);
    }
  }

  /** What top-ups of stream `id` brought that were newer than everything before them, after an event had opened it. */
  ghost function ToppedUp(events: seq<RawEvent>, id: string): int {
    if events == [] then 0
    else
      var n := |events| - 1;
      var ev := events[n];
      ToppedUp(events[..n], id)
      + if ev.eventType.StreamToppedUp? && ev.data.streamId == id && IsNewest(events) && Highest(events[..n], id).Some?
        then ev.data.amount else 0
  }

  lemma {:induction false} NothingOnTop(events: seq<RawEvent>, id: string)
    requires Highest(events, id).None?
    ensures ToppedUp(events, id) == 0
  {
    if events != [] {
      NothingOnTop(events[..|events| - 1], id);
    }
  }

  /** The deposit is what the first event brought, and every later top-up newer than everything before it. */
  lemma {:induction false} DepositIs(events: seq<RawEvent>, i: nat, id: string)
    requires IngestAll(NoRows(), events).Ok? && Opening(events, i, id)
    ensures var streams := IngestAll(NoRows(), events).value.streams;
            && id in streams
            && streams[id].deposit ==
               (if events[i].eventType.StreamToppedUp? then events[i].data.amount else events[i].data.deposit) + ToppedUp(events, id)
  {
    hide Highest, IngestAll, IsNewest;
    LastEvent(events, id);
    OpeningSteps(events, i, id);
    if i < |events| - 1 {
      DepositIs(events[..|events| - 1], i, id);
    } else {
      NothingOnTop(events[..i], id);
    }
  }

  /** The `j`-th event moves stream `id` to another recipient. */
  ghost predicate Moves(events: seq<RawEvent>, j: nat, id: string) {
    j < |events| && events[j].eventType.XferRec? && events[j].data.streamId == id && IsNewest(events[..j + 1])
  }

  ghost predicate LastMove(events: seq<RawEvent>, j: nat, id: string) {
    Moves(events, j, id) && forall k: nat :: j < k ==> !Moves(events, k, id)
  }

  lemma MovesEarlier(events: seq<RawEvent>, j: nat, id: string)
    requires j + 1 < |events|
    ensures Moves(events, j, id) <==> Moves(events[..|events| - 1], j, id)
  {
    hide IsNewest;
    assert events[..|events| - 1][..j + 1] == events[..j + 1];
  }

  lemma LastMoveSteps(events: seq<RawEvent>, j: nat, id: string)
    requires events != []
    ensures var n := |events| - 1;
            LastMove(events, j, id) <==> if Moves(events, n, id) then j == n else LastMove(events[..n], j, id)
  {
    hide IsNewest, Moves;
    var n := |events| - 1;
    forall k: nat | k < n ensures Moves(events, k, id) <==> Moves(events[..n], k, id) {
      MovesEarlier(events, k, id);
    }
    MovesWithin(events, id);
    MovesWithin(events[..n], id);
  }

  lemma MovesWithin(events: seq<RawEvent>, id: string)
    ensures forall j: nat :: Moves(events, j, id) ==> j < |events|
  {
  }

  /** The recipient is that of the last transfer newer than everything before it, or else of the first event. */
  lemma {:induction false} RecipientIs(events: seq<RawEvent>, i: nat, id: string)
    requires IngestAll(NoRows(), events).Ok? && Opening(events, i, id)
    ensures var streams := IngestAll(NoRows(), events).value.streams;
            && id in streams
            && (forall j: nat :: LastMove(events, j, id) ==> streams[id].recipient == events[j].data.newRecipient)
            && ((forall j: nat :: !LastMove(events, j, id)) ==> streams[id].recipient == events[i].data.recipient)
  {
    hide Highest, IngestAll, IsNewest, LastMove;
    var n := |events| - 1;
    LastEvent(events, id);
    OpeningSteps(events, i, id);
    assert events[..n + 1] == events;
    forall j: nat ensures LastMove(events, j, id) <==> if Moves(events, n, id) then j == n else LastMove(events[..n], j, id) {
      LastMoveSteps(events, j, id);
    }
    LastMoveExists(events[..n], id);
    assert LastMove(events, n, id) <==> Moves(events, n, id);
    if i < n {
      RecipientIs(events[..n], i, id);
      if forall j: nat :: !LastMove(events, j, id) {
        forall j: nat ensures !LastMove(events[..n], j, id) {
          assert !LastMove(events, j, id);
        }
      }
    } else {
      NoMoves(events[..n], id);
      FirstIsNewest(events);
    }
  }

  lemma LastMoveExists(events: seq<RawEvent>, id: string)
    ensures forall j: nat :: LastMove(events, j, id) ==> j < |events|
  {
  }

  lemma FirstIsNewest(events: seq<RawEvent>)
    requires events != [] && Highest(events[..|events| - 1], events[|events| - 1].data.streamId).None?
    ensures IsNewest(events)
  {
  }

  lemma NoMoves(events: seq<RawEvent>, id: string)
    requires Highest(events, id).None?
    ensures forall j: nat :: !LastMove(events, j, id)
  {
    hide Highest, IsNewest;
    forall j: nat ensures !LastMove(events, j, id) {
      if Moves(events, j, id) {
        OpenSince(events, j, id);
        assert false;
      }
    }
  }

  ghost predicate Ends(ev: RawEvent, id: string) {
    (ev.eventType.StreamCancelled? || ev.eventType.StreamClawback?) && ev.data.streamId == id
  }

  lemma LastCancels(events: seq<RawEvent>, id: string)
    requires events != [] && IngestAll(NoRows(), events).Ok?
    ensures var n := |events| - 1;
            var before, after := IngestAll(NoRows(), events[..n]), IngestAll(NoRows(), events).value.streams;
            && before.Ok?
            && (id in after && after[id].cancelled <==> (id in before.value.streams && before.value.streams[id].cancelled) || Ends(events[n], id))
  {
    hide Highest, IngestAll, IsNewest;
    LastEvent(events, id);
  }

  /** A row is cancelled exactly if a cancellation or a clawback named its stream. */
  lemma {:induction false} CancelledIff(events: seq<RawEvent>, id: string)
    requires IngestAll(NoRows(), events).Ok?
    ensures var streams := IngestAll(NoRows(), events).value.streams;
            id in streams && streams[id].cancelled <==> exists j :: 0 <= j < |events| && Ends(events[j], id)
  {
    if events != [] {
      hide Highest, IngestAll, IsNewest, Ends, OnStream;
      var n := |events| - 1;
      LastCancels(events, id);
      CancelledIff(events[..n], id);
      if j :| 0 <= j < n && Ends(events[..n][j], id) {
        assert Ends(events[j], id);
      }
      if j :| 0 <= j < |events| && Ends(events[j], id) {
        assert j < n ==> Ends(events[..n][j], id);
      }
    }
  }

  // ---- vote rows ---------------------------------------------------------------------

  /** `ev` is a vote of the kind its table keeps, on the subject and by the voter of the key. */
  ghost predicate Casts(ev: RawEvent, key: VoteKey) {
    && ev.data.subject == key.subject && ev.data.voter == key.voter
    && match key.table
       case LoanVotes => ev.eventType.LoanVote?
       case TreasuryVotes => ev.eventType.TreasuryVote?
       case TreasuryReveals => ev.eventType.TreasuryReveal?
  }

  lemma CastsIff(ev: RawEvent, key: VoteKey)
    ensures Casts(ev, key) <==> OnVote(ev.eventType) && KeyOfVote(ev) == key
  {
  }

  /** `row` shows the choice of the `j`-th event: the hash for a reveal, support and weight for the others. */
  ghost predicate ShowsChoice(row: Vote, key: VoteKey, ev: RawEvent) {
    if key.table.TreasuryReveals? then row.choice == Sealed(ev.data.voteHash)
    else row.choice == Ballot(ev.data.support, ev.data.weight)
  }

  ghost predicate LastCast(events: seq<RawEvent>, j: nat, key: VoteKey) {
    j < |events| && Casts(events[j], key) && forall k :: j < k < |events| ==> !Casts(events[k], key)
  }

  /** The `j`-th event is the last of those for the key that reach `ledger`, and it is of transaction `txHash`. */
  ghost predicate LastCastAt(events: seq<RawEvent>, j: nat, key: VoteKey, ledger: int, txHash: string) {
    && j < |events| && Casts(events[j], key) && events[j].ledger == ledger && events[j].txHash == txHash
    && forall k :: j < k < |events| && Casts(events[k], key) ==> events[k].ledger < ledger
  }

  /** A vote row, from the events alone: the choice of the last vote under its table, subject and voter; the highest
      ledger of these votes; and the transaction of the last one at that ledger. */
  ghost predicate VoteRow(row: Vote, events: seq<RawEvent>, key: VoteKey) {
    && (exists j: nat :: LastCast(events, j, key) && ShowsChoice(row, key, events[j]))
    && (forall k :: 0 <= k < |events| && Casts(events[k], key) ==> events[k].ledger <= row.ledger)
    && exists j: nat :: LastCastAt(events, j, key, row.ledger, row.txHash)
  }

  lemma {:induction false} VoteRowIs(events: seq<RawEvent>, key: VoteKey)
    requires IngestAll(NoRows(), events).Ok?
    ensures var votes := IngestAll(NoRows(), events).value.votes;
            && (key in votes <==> exists j :: 0 <= j < |events| && Casts(events[j], key))
            && (key in votes ==> VoteRow(votes[key], events, key))
  {
    if events != [] {
      hide IngestEvent, VoteRow, Casts, Overwritten, OnVote, KeyOfVote, VoteIn;
      var n := |events| - 1;
      var ev := events[n];
      var early := events[..n];
      var before := IngestAll(NoRows(), early).value.votes;
      VoteRowIs(early, key);
      OneMoreVote(IngestAll(NoRows(), early).value, ev, key);
      CastsIff(ev, key);
      assert events == early + [ev];
      if Casts(ev, key) {
        LaterVote(early, ev, key, Lookup(before, key));
      } else if key in before {
        NoVote(early, ev, key, before[key]);
      }
      assert forall j :: 0 <= j < n ==> early[j] == events[j];
    }
  }

  lemma NoVote(early: seq<RawEvent>, ev: RawEvent, key: VoteKey, row: Vote)
    requires VoteRow(row, early, key) && !Casts(ev, key)
    ensures VoteRow(row, early + [ev], key)
  {
    hide Casts, ShowsChoice;
    var events := early + [ev];
    var j: nat :| LastCast(early, j, key) && ShowsChoice(row, key, early[j]);
    assert LastCast(events, j, key) && ShowsChoice(row, key, events[j]);
    var i: nat :| LastCastAt(early, i, key, row.ledger, row.txHash);
    assert LastCastAt(events, i, key, row.ledger, row.txHash);
  }

  lemma LaterVote(early: seq<RawEvent>, ev: RawEvent, key: VoteKey, row: Option<Vote>)
    requires Casts(ev, key)
    requires row.Some? ==> VoteRow(row.value, early, key)
    requires row.None? ==> forall j :: 0 <= j < |early| ==> !Casts(early[j], key)
    ensures VoteRow(Overwritten(row, VoteIn(ev)), early + [ev], key)
  {
    var after, events, n := Overwritten(row, VoteIn(ev)), early + [ev], |early|;
    assert ShowsChoice(after, key, ev) && after.ledger == (if row.Some? then Larger(row.value.ledger, ev.ledger) else ev.ledger);
    assert after.txHash == if row.Some? && row.value.ledger > ev.ledger then row.value.txHash else ev.txHash;
    hide Casts, ShowsChoice, Overwritten, VoteIn;
    assert LastCast(events, n, key) && events[n] == ev;
    if row.Some? && row.value.ledger > ev.ledger {
      var i: nat :| LastCastAt(early, i, key, row.value.ledger, row.value.txHash);
      assert LastCastAt(events, i, key, after.ledger, after.txHash);
    } else {
      assert LastCastAt(events, n, key, after.ledger, after.txHash);
    }
  }

  // ---- raw events and withdrawal rows ------------------------------------------------

  ghost predicate HasRawKey(ev: RawEvent, key: RawKey) {
    ev.ledger == key.ledger && ev.txHash == key.txHash && ev.eventType == key.eventType && ev.contractId == key.contractId
  }

  /** The raw table keeps, for each ledger, transaction, type and contract, the data of the first such event. */
  lemma {:induction false} RawRowIs(events: seq<RawEvent>, key: RawKey)
    requires IngestAll(NoRows(), events).Ok?
    ensures var raw := IngestAll(NoRows(), events).value.raw;
            if key !in raw then forall j :: 0 <= j < |events| ==> !HasRawKey(events[j], key)
            else exists j :: && 0 <= j < |events| && HasRawKey(events[j], key) && raw[key] == events[j].data
                             && forall k :: 0 <= k < j ==> !HasRawKey(events[k], key)
  {
    if events != [] {
      hide IngestAll, HasRawKey;
      var n := |events| - 1;
      var early := events[..n];
      IngestOneMore(NoRows(), early, events[n]);
      assert events == early + [events[n]];
      RawRowIs(early, key);
      RawStep(IngestAll(NoRows(), early).value, events[n], key);
      assert forall k :: 0 <= k < n ==> events[k] == early[k];
      if key in IngestAll(NoRows(), early).value.raw {
        var j :| && 0 <= j < n && HasRawKey(early[j], key) && IngestAll(NoRows(), early).value.raw[key] == early[j].data
                 && forall k :: 0 <= k < j ==> !HasRawKey(early[k], key);
        assert HasRawKey(events[j], key);
      } else if HasRawKey(events[n], key) {
        assert HasRawKey(events[n], key) && IngestAll(NoRows(), events).value.raw[key] == events[n].data;
      }
    }
  }

  lemma RawStep(t: Tables, ev: RawEvent, key: RawKey)
    requires IngestEvent(t, ev).Ok?
    ensures Lookup(IngestEvent(t, ev).value.raw, key) ==
            if key !in t.raw && HasRawKey(ev, key) then Some(ev.data) else Lookup(t.raw, key)
  {
    hide UpsertStream, VoteFits, VoteIn, KeyOfVote, Overwritten;
  }

  ghost predicate HasPaymentKey(ev: RawEvent, key: WithdrawalKey) {
    ev.eventType.StreamWithdrawn? && ev.ledger == key.ledger && ev.txHash == key.txHash && ev.data.streamId == key.streamId
  }

  /** There is one withdrawal row for each ledger, transaction and stream, with the recipient and the amount of the
      first such withdrawal. */
  lemma {:induction false} WithdrawalRowIs(events: seq<RawEvent>, key: WithdrawalKey)
    requires IngestAll(NoRows(), events).Ok?
    ensures var rows := IngestAll(NoRows(), events).value.withdrawals;
            if key !in rows then forall j :: 0 <= j < |events| ==> !HasPaymentKey(events[j], key)
            else exists j :: && 0 <= j < |events| && HasPaymentKey(events[j], key)
                             && rows[key] == Withdrawal(events[j].data.recipient, events[j].data.amount)
                             && forall k :: 0 <= k < j ==> !HasPaymentKey(events[k], key)
  {
    if events != [] {
      hide IngestAll, IngestEvent, HasPaymentKey;
      var n := |events| - 1;
      var early := events[..n];
      IngestOneMore(NoRows(), early, events[n]);
      assert events == early + [events[n]];
      WithdrawalRowIs(early, key);
      PaymentStep(IngestAll(NoRows(), early).value, events[n], key);
      assert forall k :: 0 <= k < n ==> events[k] == early[k];
      var rows := IngestAll(NoRows(), early).value.withdrawals;
      if key in rows {
        var j :| && 0 <= j < n && HasPaymentKey(early[j], key)
                 && rows[key] == Withdrawal(early[j].data.recipient, early[j].data.amount)
                 && forall k :: 0 <= k < j ==> !HasPaymentKey(early[k], key);
        assert HasPaymentKey(events[j], key);
      } else if HasPaymentKey(events[n], key) {
        assert IngestAll(NoRows(), events).value.withdrawals[key] == Withdrawal(events[n].data.recipient, events[n].data.amount);
      }
    }
  }

  lemma PaymentStep(t: Tables, ev: RawEvent, key: WithdrawalKey)
    requires IngestEvent(t, ev).Ok?
    ensures Lookup(IngestEvent(t, ev).value.withdrawals, key) ==
            if key !in t.withdrawals && HasPaymentKey(ev, key) then Some(Withdrawal(ev.data.recipient, ev.data.amount))
            else Lookup(t.withdrawals, key)
  {
    hide IngestEvent;
    OneMoreRow(t, ev);
  }
}
