/** Fold handlers of the indexer (indexer/src/handlers.ts) over the tables of db/schema.sql: what folding an
    event does to the derived rows, and why folding it again does no harm. */
module Handlers {
  import opened Base

  datatype Failure = OutOfRange | UnknownStream

  datatype EventType =
    | StreamWithdrawn | StreamCancelled | StreamPaused | StreamResumed | StreamToppedUp | StreamClawback
    | XferRec | LoanVote | TreasuryVote | TreasuryReveal | Unhandled(name: string)

  /** The decoded payload; fields an event does not use are ignored. */
  datatype Data = Data(streamId: string, sender: string, recipient: string, newRecipient: string, token: string,
                       deposit: int, rate: int, amount: int,
                       subject: string, voter: string, support: bool, weight: int, voteHash: string)

  datatype RawEvent = RawEvent(ledger: int, txHash: string, eventType: EventType, contractId: string, data: Data)

  // ---- tables ------------------------------------------------------------------------

  datatype Stream = Stream(sender: string, recipient: string, token: string, deposit: int, rate: int,
                           withdrawn: int, paused: bool, cancelled: bool, updatedLedger: int)

  datatype RawKey = RawKey(ledger: int, txHash: string, eventType: EventType, contractId: string)

  datatype WithdrawalKey = WithdrawalKey(ledger: int, txHash: string, streamId: string)

  datatype Withdrawal = Withdrawal(recipient: string, amount: int)

  /** The three governance tables share one shape and are kept in one map, tagged by table. */
  datatype VoteTable = LoanVotes | TreasuryVotes | TreasuryReveals

  datatype VoteKey = VoteKey(table: VoteTable, subject: string, voter: string)

  datatype Choice = Ballot(support: bool, weight: int) | Sealed(voteHash: string)

  datatype Vote = Vote(choice: Choice, ledger: int, txHash: string)

  datatype Tables = Tables(raw: map<RawKey, Data>, streams: map<string, Stream>,
                           withdrawals: map<WithdrawalKey, Withdrawal>, votes: map<VoteKey, Vote>)

  /** A BIGINT column takes 64-bit signed values; anything else aborts the statement. */
  predicate Fits(x: int) { -0x8000_0000_0000_0000 <= x < 0x8000_0000_0000_0000 }

  predicate RowFits(s: Stream) { Fits(s.deposit) && Fits(s.rate) && Fits(s.withdrawn) && Fits(s.updatedLedger) }

  // ---- stream rows -------------------------------------------------------------------

  predicate OnStream(t: EventType) {
    t.StreamWithdrawn? || t.StreamCancelled? || t.StreamPaused? || t.StreamResumed? || t.StreamToppedUp? || t.StreamClawback? || t.XferRec?
  }

  /** The row an event inserts for a stream not seen before. */
  function Proposed(ev: RawEvent): Stream {
    var d := ev.data;
    var row := Stream(d.sender, d.recipient, d.token, d.deposit, d.rate, 0, false, false, ev.ledger);
    match ev.eventType
    case StreamWithdrawn => row.(withdrawn := d.amount)
    case StreamCancelled => row.(cancelled := true)
    case StreamClawback => row.(cancelled := true)
    case StreamPaused => row.(paused := true)
    case StreamToppedUp => row.(deposit := d.amount)
    case XferRec => row.(recipient := d.newRecipient)
    case _ => row
  }

  /** What an event makes of an existing row: sums and the recipient move only on a newer ledger. */
  function Merged(row: Stream, ev: RawEvent): Stream {
    var newer := ev.ledger > row.updatedLedger;
    var seen := row.(updatedLedger := Larger(row.updatedLedger, ev.ledger));
    match ev.eventType
    case StreamWithdrawn => if newer then seen.(withdrawn := row.withdrawn + ev.data.amount) else seen
    case StreamCancelled => seen.(cancelled := true)
    case StreamClawback => seen.(cancelled := true)
    case StreamPaused => seen.(paused := true)
    case StreamResumed => seen.(paused := false)
    case StreamToppedUp => if newer then seen.(deposit := row.deposit + ev.data.amount) else seen
    case XferRec => if newer then seen.(recipient := ev.data.newRecipient) else seen
    case _ => seen
  }

  function Larger(a: int, b: int): int { if a >= b then a else b }

  function UpsertStream(streams: map<string, Stream>, ev: RawEvent): Result<map<string, Stream>, Failure> {
    var id := ev.data.streamId;
    if !RowFits(Proposed(ev)) then Err(OutOfRange)
    else if id !in streams then Ok(streams[id := Proposed(ev)])
    else if !RowFits(Merged(streams[id], ev)) then Err(OutOfRange)
    else Ok(streams[id := Merged(streams[id], ev)])
  }

  function KeyOfWithdrawal(ev: RawEvent): WithdrawalKey { WithdrawalKey(ev.ledger, ev.txHash, ev.data.streamId) }

  /** Inserts the withdrawal row once; a new row needs its stream to exist. */
  function InsertWithdrawal(t: Tables, ev: RawEvent): Result<Tables, Failure> {
    if !Fits(ev.ledger) || !Fits(ev.data.amount) then Err(OutOfRange)
    else if KeyOfWithdrawal(ev) in t.withdrawals then Ok(t)
    else if ev.data.streamId !in t.streams then Err(UnknownStream)
    else Ok(t.(withdrawals := t.withdrawals[KeyOfWithdrawal(ev) := Withdrawal(ev.data.recipient, ev.data.amount)]))
  }

  // ---- vote rows ---------------------------------------------------------------------

  predicate OnVote(t: EventType) { t.LoanVote? || t.TreasuryVote? || t.TreasuryReveal? }

  function KeyOfVote(ev: RawEvent): VoteKey {
    VoteKey(if ev.eventType.LoanVote? then LoanVotes else if ev.eventType.TreasuryVote? then TreasuryVotes else TreasuryReveals,
            ev.data.subject, ev.data.voter)
  }

  function VoteIn(ev: RawEvent): Vote {
    Vote(if ev.eventType.TreasuryReveal? then Sealed(ev.data.voteHash) else Ballot(ev.data.support, ev.data.weight), ev.ledger, ev.txHash)
  }

  predicate VoteFits(v: Vote) { Fits(v.ledger) && (v.choice.Ballot? ==> Fits(v.choice.weight)) }

  /** The row after writing `v`: the choice is always replaced, the transaction only by one as recent. */
  function Overwritten(row: Option<Vote>, v: Vote): Vote {
    match row
    case None => v
    case Some(r) => Vote(v.choice, Larger(r.ledger, v.ledger), if v.ledger >= r.ledger then v.txHash else r.txHash)
  }

  function Lookup<K, V>(m: map<K, V>, k: K): Option<V> { if k in m then Some(m[k]) else None }

  // ---- folding -----------------------------------------------------------------------

  function FoldEvent(t: Tables, ev: RawEvent): Result<Tables, Failure> {
    if OnStream(ev.eventType) then
      var inserted := if ev.eventType.StreamWithdrawn? then InsertWithdrawal(t, ev) else Ok(t);
      if inserted.Err? then inserted
      else
        var streams := UpsertStream(inserted.value.streams, ev);
        if streams.Err? then Err(streams.error) else Ok(inserted.value.(streams := streams.value))
    else if OnVote(ev.eventType) then
      if !VoteFits(VoteIn(ev)) then Err(OutOfRange)
      else Ok(t.(votes := t.votes[KeyOfVote(ev) := Overwritten(Lookup(t.votes, KeyOfVote(ev)), VoteIn(ev))]))
    else Ok(t)
  }

  function KeyOfRaw(ev: RawEvent): RawKey { RawKey(ev.ledger, ev.txHash, ev.eventType, ev.contractId) }

  /** One event of a page: kept in the raw table once, then folded. */
  function IngestEvent(t: Tables, ev: RawEvent): Result<Tables, Failure> {
    if !Fits(ev.ledger) then Err(OutOfRange)
    else FoldEvent(if KeyOfRaw(ev) in t.raw then t else t.(raw := t.raw[KeyOfRaw(ev) := ev.data]), ev)
  }

  function IngestAll(t: Tables, events: seq<RawEvent>): Result<Tables, Failure> {
    if events == [] then Ok(t)
    else
      var before := IngestAll(t, events[..|events| - 1]);
      if before.Err? then before else IngestEvent(before.value, events[|events| - 1])
  }

  lemma {:induction false} IngestAllSplits(t: Tables, p: seq<RawEvent>, q: seq<RawEvent>)
    ensures IngestAll(t, p + q) == var before := IngestAll(t, p); if before.Err? then before else IngestAll(before.value, q)
  {
    if q == [] {
      assert p + q == p;
    } else {
      var n := |q| - 1;
      IngestAllSplits(t, p, q[..n]);
      assert (p + q)[..|p + q| - 1] == p + q[..n];
    }
  }

  // ---- what a fold leaves behind for good --------------------------------------------

  /** Everything `ev` had to write is there, up to last-writer fields. */
  ghost predicate Settled(t: Tables, ev: RawEvent) {
    && Fits(ev.ledger)
    && KeyOfRaw(ev) in t.raw
    && (OnStream(ev.eventType) ==>
          && RowFits(Proposed(ev))
          && ev.data.streamId in t.streams
          && RowFits(t.streams[ev.data.streamId])
          && t.streams[ev.data.streamId].updatedLedger >= ev.ledger
          && (ev.eventType.StreamCancelled? || ev.eventType.StreamClawback? ==> t.streams[ev.data.streamId].cancelled))
    && (ev.eventType.StreamWithdrawn? ==> KeyOfWithdrawal(ev) in t.withdrawals)
    && (OnVote(ev.eventType) ==>
          VoteFits(VoteIn(ev)) && KeyOfVote(ev) in t.votes && t.votes[KeyOfVote(ev)].ledger >= VoteIn(ev).ledger)
  }

  lemma IngestSettles(t: Tables, ev: RawEvent)
    requires IngestEvent(t, ev).Ok?
    ensures Settled(IngestEvent(t, ev).value, ev)
  {
  }

  // What one more event does to each table.

  lemma OneMoreRaw(t: Tables, ev: RawEvent, key: RawKey)
    requires IngestEvent(t, ev).Ok? && key in t.raw
    ensures key in IngestEvent(t, ev).value.raw
  {
    hide UpsertStream, VoteFits, VoteIn, KeyOfVote, Overwritten;
  }

  lemma OneMoreEvent(t: Tables, ev: RawEvent, id: string)
    requires IngestEvent(t, ev).Ok?
    ensures Lookup(IngestEvent(t, ev).value.streams, id) ==
            if !OnStream(ev.eventType) || ev.data.streamId != id then Lookup(t.streams, id)
            else if id in t.streams then Some(Merged(t.streams[id], ev)) else Some(Proposed(ev))
  {
    hide Merged, Proposed, RowFits, Fits, VoteFits, VoteIn, KeyOfVote, Overwritten;
  }

  lemma OneMoreFits(t: Tables, ev: RawEvent, id: string)
    requires IngestEvent(t, ev).Ok? && (id in t.streams ==> RowFits(t.streams[id]))
    ensures id in IngestEvent(t, ev).value.streams ==> RowFits(IngestEvent(t, ev).value.streams[id])
  {
    hide Merged, Proposed, RowFits, Fits, VoteFits, VoteIn, KeyOfVote, Overwritten;
  }

  lemma OneMoreRow(t: Tables, ev: RawEvent)
    requires IngestEvent(t, ev).Ok?
    ensures IngestEvent(t, ev).value.withdrawals ==
            if ev.eventType.StreamWithdrawn? && KeyOfWithdrawal(ev) !in t.withdrawals
            then t.withdrawals[KeyOfWithdrawal(ev) := Withdrawal(ev.data.recipient, ev.data.amount)] else t.withdrawals
  {
    hide VoteFits, VoteIn, KeyOfVote, Overwritten, UpsertStream;
  }

  lemma OneMoreVote(t: Tables, ev: RawEvent, key: VoteKey)
    requires IngestEvent(t, ev).Ok?
    ensures Lookup(IngestEvent(t, ev).value.votes, key) ==
            if OnVote(ev.eventType) && KeyOfVote(ev) == key then Some(Overwritten(Lookup(t.votes, key), VoteIn(ev)))
            else Lookup(t.votes, key)
  {
    hide VoteFits, VoteIn, KeyOfVote, Overwritten, UpsertStream;
  }

  lemma IngestKeepsSettled(t: Tables, ev: RawEvent, other: RawEvent)
    requires IngestEvent(t, ev).Ok? && Settled(t, other)
    ensures Settled(IngestEvent(t, ev).value, other)
  {
    hide IngestEvent, VoteFits, VoteIn, KeyOfVote, RowFits, Fits, Proposed;
    OneMoreRaw(t, ev, KeyOfRaw(other));
    OneMoreRow(t, ev);
    if OnStream(other.eventType) {
      OneMoreEvent(t, ev, other.data.streamId);
      OneMoreFits(t, ev, other.data.streamId);
    }
    if OnVote(other.eventType) {
      OneMoreVote(t, ev, KeyOfVote(other));
    }
  }

  lemma {:induction false} IngestAllSettles(t: Tables, events: seq<RawEvent>, ev: RawEvent)
    requires IngestAll(t, events).Ok? && (ev in events || Settled(t, ev))
    ensures Settled(IngestAll(t, events).value, ev)
  {
    hide Settled, IngestEvent;
    if events != [] {
      var n := |events| - 1;
      var before := IngestAll(t, events[..n]).value;
      if ev == events[n] {
        IngestSettles(before, ev);
      } else {
        assert ev in events ==> ev in events[..n];
        IngestAllSettles(t, events[..n], ev);
        IngestKeepsSettled(before, events[n], ev);
      }
    }
  }

  // ---- last-writer fields ------------------------------------------------------------

  /** What the last pause or resume of stream `id` sets the flag to, if there is one. */
  function LastFlag(events: seq<RawEvent>, id: string): Option<bool> {
    if events == [] then None
    else
      var ev := events[|events| - 1];
      if ev.data.streamId == id && ev.eventType.StreamPaused? then Some(true)
      else if ev.data.streamId == id && ev.eventType.StreamResumed? then Some(false)
      else LastFlag(events[..|events| - 1], id)
  }

  function PausedBy(events: seq<RawEvent>, id: string, start: bool): bool { LastFlag(events, id).GetOr(start) }

  /** What one event makes of the flag. */
  function Flagged(ev: RawEvent, id: string, start: bool): bool {
    if ev.data.streamId == id && ev.eventType.StreamPaused? then true
    else if ev.data.streamId == id && ev.eventType.StreamResumed? then false
    else start
  }

  lemma PausedBySteps(earlier: seq<RawEvent>, ev: RawEvent, id: string, start: bool)
    ensures PausedBy(earlier + [ev], id, start) == Flagged(ev, id, PausedBy(earlier, id, start))
  {
    assert (earlier + [ev])[..|earlier|] == earlier;
  }

  /** The votes `events` cast under `key`, in order. */
  function VotesFor(events: seq<RawEvent>, key: VoteKey): seq<Vote> {
    if events == [] then []
    else
      var ev := events[|events| - 1];
      VotesFor(events[..|events| - 1], key) + if OnVote(ev.eventType) && KeyOfVote(ev) == key then [VoteIn(ev)] else []
  }

  function Written(votes: seq<Vote>, start: Option<Vote>): Option<Vote> {
    if votes == [] then start
    else Some(Overwritten(Written(votes[..|votes| - 1], start), votes[|votes| - 1]))
  }

  /** What a vote row shows: the last choice, the highest ledger, and the last transaction at that ledger. */
  ghost predicate ShowsLatest(row: Vote, votes: seq<Vote>, start: Option<Vote>) {
    && votes != []
    && row.choice == votes[|votes| - 1].choice
    && (forall v :: v in votes ==> v.ledger <= row.ledger)
    && (start.Some? ==> start.value.ledger <= row.ledger)
    && ((exists i :: 0 <= i < |votes| && LastAt(votes, i, row.ledger, row.txHash))
        || (&& start.Some? && start.value.ledger == row.ledger && start.value.txHash == row.txHash
            && forall v :: v in votes ==> v.ledger < row.ledger))
  }

  ghost predicate LastAt(votes: seq<Vote>, i: nat, ledger: int, txHash: string)
    requires i < |votes|
  {
    votes[i].ledger == ledger && votes[i].txHash == txHash && forall j :: i < j < |votes| ==> votes[j].ledger < ledger
  }

  lemma {:induction false} WrittenShowsLatest(votes: seq<Vote>, start: Option<Vote>)
    requires votes != []
    ensures ShowsLatest(Written(votes, start).value, votes, start)
  {
    var n := |votes| - 1;
    var v := votes[n];
    var row := Written(votes, start).value;
    assert votes == votes[..n] + [v];
    if n == 0 {
      assert Written(votes[..n], start) == start;
      if start.None? || v.ledger >= start.value.ledger {
        assert LastAt(votes, 0, row.ledger, row.txHash);
      }
    } else {
      WrittenShowsLatest(votes[..n], start);
      var before := Written(votes[..n], start).value;
      if v.ledger >= before.ledger {
        assert LastAt(votes, n, row.ledger, row.txHash);
      } else if exists i :: 0 <= i < n && LastAt(votes[..n], i, before.ledger, before.txHash) {
        var i :| 0 <= i < n && LastAt(votes[..n], i, before.ledger, before.txHash);
        forall j | i < j < |votes| ensures votes[j].ledger < row.ledger {
          assert j < n ==> votes[..n][j] == votes[j];
        }
        assert LastAt(votes, i, row.ledger, row.txHash);
      }
    }
  }

  /** Writing the same votes again changes nothing. */
  lemma WrittenTwice(votes: seq<Vote>, start: Option<Vote>)
    ensures Written(votes, Written(votes, start)) == Written(votes, start)
  {
    if votes != [] {
      var once := Written(votes, start);
      WrittenShowsLatest(votes, start);
      WrittenShowsLatest(votes, once);
      var again := Written(votes, once).value;
      if exists i :: 0 <= i < |votes| && LastAt(votes, i, again.ledger, again.txHash) {
        var i :| 0 <= i < |votes| && LastAt(votes, i, again.ledger, again.txHash);
        assert votes[i] in votes;
        var j :| 0 <= j < |votes| && LastAt(votes, j, once.value.ledger, once.value.txHash);
      }
    }
  }

  /** The pause flag and the vote rows after folding, from the events alone. */
  lemma {:induction false} LastWriterWins(t: Tables, events: seq<RawEvent>, id: string, key: VoteKey)
    requires IngestAll(t, events).Ok?
    ensures var after := IngestAll(t, events).value;
            && (id in after.streams ==> after.streams[id].paused == PausedBy(events, id, id in t.streams && t.streams[id].paused))
            && (id in t.streams ==> id in after.streams)
            && Lookup(after.votes, key) == Written(VotesFor(events, key), Lookup(t.votes, key))
  {
    if events != [] {
      var n := |events| - 1;
      LastWriterWins(t, events[..n], id, key);
      OneMoreWrite(IngestAll(t, events[..n]).value, events[n], id, key);
      var casts := VotesFor(events[..n], key);
      assert (casts + [VoteIn(events[n])])[..|casts|] == casts;
      assert casts + [] == casts;
      if id !in IngestAll(t, events[..n]).value.streams {
        NeverInserted(t, events[..n], id);
      }
    }
  }

  lemma {:induction false} NeverInserted(t: Tables, events: seq<RawEvent>, id: string)
    requires IngestAll(t, events).Ok? && id !in IngestAll(t, events).value.streams
    ensures PausedBy(events, id, false) == false && id !in t.streams
  {
    if events != [] {
      OneMoreWrite(IngestAll(t, events[..|events| - 1]).value, events[|events| - 1], id, VoteKey(LoanVotes, "", ""));
      NeverInserted(t, events[..|events| - 1], id);
    }
  }

  lemma OneMoreWrite(t: Tables, ev: RawEvent, id: string, key: VoteKey)
    requires IngestEvent(t, ev).Ok?
    ensures var after := IngestEvent(t, ev).value;
            && (id in after.streams <==> id in t.streams || (OnStream(ev.eventType) && ev.data.streamId == id))
            && (id in after.streams ==>
                  after.streams[id].paused ==
                  if ev.data.streamId == id && ev.eventType.StreamPaused? then true
                  else if ev.data.streamId == id && ev.eventType.StreamResumed? then false
                  else id in t.streams && t.streams[id].paused)
            && Lookup(after.votes, key) ==
               if OnVote(ev.eventType) && KeyOfVote(ev) == key then Some(Overwritten(Lookup(t.votes, key), VoteIn(ev)))
               else Lookup(t.votes, key)
  {
    hide IngestEvent, Overwritten, VoteIn, KeyOfVote;
    OneMoreEvent(t, ev, id);
    OneMoreVote(t, ev, key);
  }

  // ---- folding again -----------------------------------------------------------------

  /** `u` is `t` up to the last-writer fields, which are what `events` write over those of `t`. */
  ghost predicate Rewritten(u: Tables, t: Tables, events: seq<RawEvent>) {
    && u.raw == t.raw
    && u.withdrawals == t.withdrawals
    && u.streams.Keys == t.streams.Keys
    && (forall id :: id in t.streams ==> u.streams[id] == t.streams[id].(paused := PausedBy(events, id, t.streams[id].paused)))
    && (forall key :: Lookup(u.votes, key) == Written(VotesFor(events, key), Lookup(t.votes, key)))
  }

  lemma RefoldOne(u: Tables, ev: RawEvent)
    requires Settled(u, ev)
    ensures IngestEvent(u, ev).Ok?
    ensures var after := IngestEvent(u, ev).value;
            && after.raw == u.raw && after.withdrawals == u.withdrawals && after.streams.Keys == u.streams.Keys
            && forall id :: id in u.streams ==> after.streams[id] == u.streams[id].(paused := Flagged(ev, id, u.streams[id].paused))
  {
    hide Overwritten, VoteIn, KeyOfVote, VoteFits;
  }

  /** Folding events that are already settled rewrites last-writer fields and nothing else. */
  lemma {:induction false} Refold(t: Tables, events: seq<RawEvent>)
    requires forall ev :: ev in events ==> Settled(t, ev)
    ensures IngestAll(t, events).Ok? && Rewritten(IngestAll(t, events).value, t, events)
  {
    if events != [] {
      var n := |events| - 1;
      var ev := events[n];
      Refold(t, events[..n]);
      var u := IngestAll(t, events[..n]).value;
      IngestAllSettles(t, events[..n], ev);
      RefoldStep(t, u, events[..n], ev);
      assert events == events[..n] + [ev];
    }
  }

  lemma RefoldStep(t: Tables, u: Tables, earlier: seq<RawEvent>, ev: RawEvent)
    requires Rewritten(u, t, earlier) && Settled(u, ev)
    ensures IngestEvent(u, ev).Ok? && Rewritten(IngestEvent(u, ev).value, t, earlier + [ev])
  {
    hide Settled, IngestEvent, Overwritten, VoteIn, KeyOfVote, OnVote, PausedBy, Flagged;
    RefoldOne(u, ev);
    var after := IngestEvent(u, ev).value;
    var events := earlier + [ev];
    assert events[..|earlier|] == earlier;
    forall id | id in t.streams
      ensures after.streams[id] == t.streams[id].(paused := PausedBy(events, id, t.streams[id].paused))
    {
      PausedBySteps(earlier, ev, id, t.streams[id].paused);
      assert u.streams[id].paused == PausedBy(earlier, id, t.streams[id].paused);
    }
    forall key ensures Lookup(after.votes, key) == Written(VotesFor(events, key), Lookup(t.votes, key)) {
      OneMoreWrite(u, ev, "", key);
      var casts := VotesFor(earlier, key);
      assert (casts + [VoteIn(ev)])[..|casts|] == casts;
      assert casts + [] == casts;
    }
  }

  lemma RewrittenIsSame(u: Tables, t: Tables, events: seq<RawEvent>)
    requires Rewritten(u, t, events)
    ensures u == t <==>
            && (forall id :: id in t.streams ==> PausedBy(events, id, t.streams[id].paused) == t.streams[id].paused)
            && (forall key :: Written(VotesFor(events, key), Lookup(t.votes, key)) == Lookup(t.votes, key))
  {
    hide Written, VotesFor, PausedBy;
    if (forall id :: id in t.streams ==> PausedBy(events, id, t.streams[id].paused) == t.streams[id].paused)
       && (forall key :: Written(VotesFor(events, key), Lookup(t.votes, key)) == Lookup(t.votes, key))
    {
      assert u.streams == t.streams;
      forall key ensures (key in u.votes <==> key in t.votes) && (key in t.votes ==> u.votes[key] == t.votes[key]) {
        assert Lookup(u.votes, key) == Lookup(t.votes, key);
      }
      assert u.votes == t.votes;
    }
  }

  /** Transaction of the last vote at `ledger`, if there is one. */
  function LastTxAt(votes: seq<Vote>, ledger: int): Option<string> {
    if votes == [] then None
    else if votes[|votes| - 1].ledger == ledger then Some(votes[|votes| - 1].txHash)
    else LastTxAt(votes[..|votes| - 1], ledger)
  }

  /** The row already shows the last of `votes` and, of those at its ledger, the last transaction. */
  predicate Shows(row: Option<Vote>, votes: seq<Vote>) {
    votes == [] || (&& row.Some? && votes[|votes| - 1].choice == row.value.choice
                    && LastTxAt(votes, row.value.ledger) in {None, Some(row.value.txHash)})
  }

  /** What votes no newer than the row make of it. */
  lemma {:induction false} OldVotesRewrite(votes: seq<Vote>, row: Vote)
    requires forall v :: v in votes ==> v.ledger <= row.ledger
    ensures Written(votes, Some(row)) ==
            Some(Vote(if votes == [] then row.choice else votes[|votes| - 1].choice, row.ledger,
                      LastTxAt(votes, row.ledger).GetOr(row.txHash)))
  {
    if votes != [] {
      assert votes[|votes| - 1] in votes;
      OldVotesRewrite(votes[..|votes| - 1], row);
    }
  }

  lemma {:induction false} VotesAreSettled(t: Tables, events: seq<RawEvent>, key: VoteKey)
    requires forall ev :: ev in events ==> Settled(t, ev)
    ensures VotesFor(events, key) != [] ==> key in t.votes
    ensures forall v :: v in VotesFor(events, key) ==> key in t.votes && v.ledger <= t.votes[key].ledger
  {
    hide VoteIn, KeyOfVote;
    if events != [] {
      assert events[|events| - 1] in events;
      VotesAreSettled(t, events[..|events| - 1], key);
    }
  }

  /** Refolding any part of the history already folded succeeds. It leaves the tables alone exactly when,
      stream by stream, its last pause or resume (if any) sets the flag as it stands, and, vote by vote, its
      last vote (if any) is the choice that stands and its last vote at the row's ledger (if any) is the
      transaction that stands. */
  lemma RefoldHarmlessIff(s: Tables, history: seq<RawEvent>, again: seq<RawEvent>)
    requires IngestAll(s, history).Ok? && forall ev :: ev in again ==> ev in history
    ensures var t := IngestAll(s, history).value;
            && IngestAll(t, again).Ok?
            && (IngestAll(t, again).value == t <==>
                && (forall id :: id in t.streams ==> LastFlag(again, id) in {None, Some(t.streams[id].paused)})
                && (forall key :: Shows(Lookup(t.votes, key), VotesFor(again, key))))
  {
    hide Settled, IngestEvent, VotesFor, LastFlag, Written;
    var t := IngestAll(s, history).value;
    forall ev | ev in again ensures Settled(t, ev) {
      IngestAllSettles(s, history, ev);
    }
    Refold(t, again);
    RewrittenIsSame(IngestAll(t, again).value, t, again);
    forall key
      ensures Written(VotesFor(again, key), Lookup(t.votes, key)) == Lookup(t.votes, key) <==> Shows(Lookup(t.votes, key), VotesFor(again, key))
    {
      VotesAreSettled(t, again, key);
      if key in t.votes {
        OldVotesRewrite(VotesFor(again, key), t.votes[key]);
      } else {
        NothingWritten(None);
      }
    }
  }

  lemma NothingWritten(start: Option<Vote>)
    ensures Written([], start) == start
  {
  }

  /** Replaying any suffix of what was folded changes nothing. */
  lemma ReplayIsIdempotent(s: Tables, p: seq<RawEvent>, q: seq<RawEvent>)
    requires IngestAll(s, p + q).Ok?
    ensures IngestAll(IngestAll(s, p + q).value, q) == IngestAll(s, p + q)
  {
    hide IngestEvent, Settled, LastFlag;
    IngestAllSplits(s, p, q);
    var m := IngestAll(s, p).value;
    var t := IngestAll(m, q).value;
    forall ev | ev in q ensures Settled(t, ev) {
      IngestAllSettles(m, q, ev);
    }
    Refold(t, q);
    forall id | id in t.streams ensures PausedBy(q, id, t.streams[id].paused) == t.streams[id].paused {
      LastWriterWins(m, q, id, VoteKey(LoanVotes, "", ""));
    }
    forall key ensures Written(VotesFor(q, key), Lookup(t.votes, key)) == Lookup(t.votes, key) {
      LastWriterWins(m, q, "", key);
      WrittenTwice(VotesFor(q, key), Lookup(m.votes, key));
    }
    RewrittenIsSame(IngestAll(t, q).value, t, q);
  }

  function NoRows(): Tables { Tables(map[], map[], map[], map[]) }

  /** Replaying history that is not a suffix can do harm: an old pause overrides the resume that followed. */
  lemma StaleReplayPauses(p: RawEvent, r: RawEvent)
    requires p.eventType.StreamPaused? && r.eventType.StreamResumed? && p.data.streamId == r.data.streamId
    requires Fits(p.ledger) && Fits(r.ledger) && RowFits(Proposed(p)) && RowFits(Proposed(r))
    ensures && IngestAll(NoRows(), [p, r]).Ok?
            && var t := IngestAll(NoRows(), [p, r]).value;
               && !t.streams[p.data.streamId].paused
               && IngestAll(t, [p]).Ok? && IngestAll(t, [p]).value.streams[p.data.streamId].paused
  {
    var empty := NoRows();
    assert [p, r][..1] == [p] && [p][..0] == [];
    assert IngestAll(empty, [p]) == IngestEvent(empty, p);
    var t := IngestAll(empty, [p, r]).value;
    assert IngestAll(t, [p]) == IngestEvent(t, p);
  }

  /** So can an old ballot: its choice comes back under the ledger and transaction of the newer one. */
  lemma StaleReplayVotes(earlier: RawEvent, newer: RawEvent)
    requires OnVote(earlier.eventType) && newer.eventType == earlier.eventType && KeyOfVote(newer) == KeyOfVote(earlier)
    requires VoteFits(VoteIn(earlier)) && VoteFits(VoteIn(newer)) && earlier.ledger < newer.ledger
    ensures && IngestAll(NoRows(), [earlier, newer]).Ok?
            && var t := IngestAll(NoRows(), [earlier, newer]).value;
               && KeyOfVote(earlier) in t.votes && t.votes[KeyOfVote(earlier)] == VoteIn(newer)
               && IngestAll(t, [earlier]).Ok?
               && Lookup(IngestAll(t, [earlier]).value.votes, KeyOfVote(earlier)) ==
                  Some(Vote(VoteIn(earlier).choice, newer.ledger, newer.txHash))
  {
    assert [earlier, newer][..1] == [earlier] && [earlier][..0] == [];
    assert IngestAll(NoRows(), [earlier]) == IngestEvent(NoRows(), earlier);
    var t := IngestAll(NoRows(), [earlier, newer]).value;
    assert IngestAll(t, [earlier]) == IngestEvent(t, earlier);
  }

  // ---- what the counters count -------------------------------------------------------

  /** Highest ledger of any event on stream `id`. */
  function Highest(events: seq<RawEvent>, id: string): Option<int> {
    if events == [] then None
    else
      var ev := events[|events| - 1];
      var before := Highest(events[..|events| - 1], id);
      if !OnStream(ev.eventType) || ev.data.streamId != id then before
      else if before.None? then Some(ev.ledger) else Some(Larger(before.value, ev.ledger))
  }

  /** Everything withdrawn from stream `id`. */
  function Paid(events: seq<RawEvent>, id: string): int {
    if events == [] then 0
    else
      var ev := events[|events| - 1];
      Paid(events[..|events| - 1], id) + if ev.eventType.StreamWithdrawn? && ev.data.streamId == id then ev.data.amount else 0
  }

  /** The last event is newer than everything before it on its stream. */
  predicate IsNewest(events: seq<RawEvent>)
    requires events != []
  {
    var before := Highest(events[..|events| - 1], events[|events| - 1].data.streamId);
    before.None? || before.value < events[|events| - 1].ledger
  }

  /** What is withdrawn by events newer than everything before them on the stream. */
  function PaidWhenNewest(events: seq<RawEvent>, id: string): int {
    if events == [] then 0
    else
      var ev := events[|events| - 1];
      PaidWhenNewest(events[..|events| - 1], id)
      + if ev.eventType.StreamWithdrawn? && ev.data.streamId == id && IsNewest(events) then ev.data.amount else 0
  }

  /** The withdrawn column counts only withdrawals newer than everything before them on their stream. */
  lemma {:induction false} WithdrawnCountsNewest(events: seq<RawEvent>, id: string)
    requires IngestAll(NoRows(), events).Ok?
    ensures var streams := IngestAll(NoRows(), events).value.streams;
            && (id in streams <==> Highest(events, id).Some?)
            && (id in streams ==> streams[id].updatedLedger == Highest(events, id).value
                                  && streams[id].withdrawn == PaidWhenNewest(events, id))
            && (id !in streams ==> PaidWhenNewest(events, id) == 0)
  {
    if events != [] {
      WithdrawnCountsNewest(events[..|events| - 1], id);
      OneMoreEvent(IngestAll(NoRows(), events[..|events| - 1]).value, events[|events| - 1], id);
    }
  }

  /** An amount leaves stream `id` with this event. */
  predicate Pays(ev: RawEvent, id: string) {
    ev.eventType.StreamWithdrawn? && ev.data.streamId == id && ev.data.amount != 0
  }

  ghost predicate EachIsNewest(events: seq<RawEvent>, id: string) {
    forall i :: 0 <= i < |events| && Pays(events[i], id) ==> IsNewest(events[..i + 1])
  }

  lemma EachIsNewestSteps(events: seq<RawEvent>, id: string)
    requires events != []
    ensures var n := |events| - 1;
            EachIsNewest(events, id) <==>
            EachIsNewest(events[..n], id) && (Pays(events[n], id) ==> IsNewest(events))
  {
    hide IsNewest;
    var n := |events| - 1;
    var early := events[..n];
    assert events[..n + 1] == events;
    forall i | 0 <= i < n ensures events[..i + 1] == early[..i + 1] && events[i] == early[i] {
    }
  }

  /** No withdrawal from stream `id` has a negative amount. */
  ghost predicate NoneNegative(events: seq<RawEvent>, id: string) {
    forall ev :: ev in events && ev.eventType.StreamWithdrawn? && ev.data.streamId == id ==> ev.data.amount >= 0
  }

  /** So it is the total of the withdrawal events exactly when each that pays is the newest event of its
      stream at its time. */
  lemma {:induction false} CountsAllIff(events: seq<RawEvent>, id: string)
    requires NoneNegative(events, id)
    ensures PaidWhenNewest(events, id) <= Paid(events, id)
    ensures PaidWhenNewest(events, id) == Paid(events, id) <==> EachIsNewest(events, id)
  {
    if events == [] {
      assert EachIsNewest(events, id);
    } else {
      hide EachIsNewest, IsNewest;
      CountsAllIff(events[..|events| - 1], id);
      EachIsNewestSteps(events, id);
      assert events[|events| - 1] in events;
    }
  }

  // ---- the counter against the rows --------------------------------------------------

  /** Sum of the withdrawal rows of stream `id`. */
  ghost function RowSum(rows: map<WithdrawalKey, Withdrawal>, id: string): int {
    if rows == map[] then 0
    else
      var key :| key in rows;
      RowSum(rows - {key}, id) + if key.streamId == id then rows[key].amount else 0
  }

  /** Rows may be summed in any order. */
  lemma {:induction false} RowSumTakes(rows: map<WithdrawalKey, Withdrawal>, id: string, key: WithdrawalKey)
    requires key in rows
    ensures RowSum(rows, id) == RowSum(rows - {key}, id) + if key.streamId == id then rows[key].amount else 0
    decreases |rows|
  {
    var first :| first in rows && RowSum(rows, id) == RowSum(rows - {first}, id) + if first.streamId == id then rows[first].amount else 0;
    if first != key {
      RowSumTakes(rows - {first}, id, key);
      RowSumTakes(rows - {key}, id, first);
      assert rows - {first} - {key} == rows - {key} - {first};
    }
  }

  lemma RowSumGrows(rows: map<WithdrawalKey, Withdrawal>, id: string, key: WithdrawalKey, row: Withdrawal)
    requires key !in rows
    ensures RowSum(rows[key := row], id) == RowSum(rows, id) + if key.streamId == id then row.amount else 0
  {
    RowSumTakes(rows[key := row], id, key);
    assert rows[key := row] - {key} == rows;
  }

  /** Some withdrawal among `events` has this key. */
  ghost predicate Keyed(events: seq<RawEvent>, key: WithdrawalKey) {
    exists i :: 0 <= i < |events| && events[i].eventType.StreamWithdrawn? && KeyOfWithdrawal(events[i]) == key
  }

  lemma KeyedSteps(events: seq<RawEvent>, key: WithdrawalKey)
    requires events != []
    ensures var n := |events| - 1;
            Keyed(events, key) <==> Keyed(events[..n], key) || (events[n].eventType.StreamWithdrawn? && KeyOfWithdrawal(events[n]) == key)
  {
    hide KeyOfWithdrawal;
    var n := |events| - 1;
    var early := events[..n];
    if Keyed(early, key) {
      var i :| 0 <= i < n && early[i].eventType.StreamWithdrawn? && KeyOfWithdrawal(early[i]) == key;
      assert events[i] == early[i];
    }
    if Keyed(events, key) {
      var i :| 0 <= i < |events| && events[i].eventType.StreamWithdrawn? && KeyOfWithdrawal(events[i]) == key;
      assert i < n ==> early[i] == events[i];
    }
  }

  /** The last event inserts a withdrawal row: no earlier withdrawal has its key. */
  ghost predicate InsertsRow(events: seq<RawEvent>)
    requires events != []
  {
    var ev := events[|events| - 1];
    ev.eventType.StreamWithdrawn? && !Keyed(events[..|events| - 1], KeyOfWithdrawal(ev))
  }

  ghost function PaidInRows(events: seq<RawEvent>, id: string): int {
    if events == [] then 0
    else
      var ev := events[|events| - 1];
      PaidInRows(events[..|events| - 1], id) + if ev.data.streamId == id && InsertsRow(events) then ev.data.amount else 0
  }

  lemma {:induction false} RowsAreInserted(events: seq<RawEvent>, id: string)
    requires IngestAll(NoRows(), events).Ok?
    ensures var rows := IngestAll(NoRows(), events).value.withdrawals;
            RowSum(rows, id) == PaidInRows(events, id) && forall key :: key in rows <==> Keyed(events, key)
  {
    hide IngestEvent, Keyed, RowSum;
    if events == [] {
      NoRowsYet(id);
    } else {
      var n := |events| - 1;
      var ev := events[n];
      var before := IngestAll(NoRows(), events[..n]).value;
      RowsAreInserted(events[..n], id);
      OneMoreRow(before, ev);
      if ev.eventType.StreamWithdrawn? && KeyOfWithdrawal(ev) !in before.withdrawals {
        RowSumGrows(before.withdrawals, id, KeyOfWithdrawal(ev), Withdrawal(ev.data.recipient, ev.data.amount));
      }
      forall key ensures key in IngestAll(NoRows(), events).value.withdrawals <==> Keyed(events, key) {
        KeyedSteps(events, key);
      }
    }
  }

  lemma NoRowsYet(id: string)
    ensures RowSum(NoRows().withdrawals, id) == 0 && forall key :: !Keyed([], key)
  {
  }

  lemma {:induction false} HighestBounds(events: seq<RawEvent>, i: nat)
    requires i < |events| && OnStream(events[i].eventType)
    ensures Highest(events, events[i].data.streamId).Some? && events[i].ledger <= Highest(events, events[i].data.streamId).value
  {
    if i < |events| - 1 {
      HighestBounds(events[..|events| - 1], i);
    }
  }

  /** A withdrawal newer than everything before it on its stream always inserts its row. */
  lemma NewestInserts(events: seq<RawEvent>)
    requires events != [] && events[|events| - 1].eventType.StreamWithdrawn? && IsNewest(events)
    ensures InsertsRow(events)
  {
    hide Highest;
    var n := |events| - 1;
    var early := events[..n];
    if Keyed(early, KeyOfWithdrawal(events[n])) {
      var i :| 0 <= i < n && early[i].eventType.StreamWithdrawn? && KeyOfWithdrawal(early[i]) == KeyOfWithdrawal(events[n]);
      HighestBounds(early, i);
      assert false;
    }
  }

  /** Every paying withdrawal from `id` that inserts a row is newer than everything before it on `id`. */
  ghost predicate EachRowIsNewest(events: seq<RawEvent>, id: string) {
    forall i :: 0 <= i < |events| && Pays(events[i], id) && InsertsRow(events[..i + 1]) ==> IsNewest(events[..i + 1])
  }

  lemma EachRowIsNewestSteps(events: seq<RawEvent>, id: string)
    requires events != []
    ensures var n := |events| - 1;
            EachRowIsNewest(events, id) <==>
            EachRowIsNewest(events[..n], id) && (Pays(events[n], id) && InsertsRow(events) ==> IsNewest(events))
  {
    hide IsNewest, InsertsRow, Pays;
    var n := |events| - 1;
    var early := events[..n];
    assert events[..n + 1] == events;
    forall i | 0 <= i < n ensures events[..i + 1] == early[..i + 1] && events[i] == early[i] {
    }
  }

  lemma {:induction false} NewestAreRowsIff(events: seq<RawEvent>, id: string)
    requires NoneNegative(events, id)
    ensures PaidWhenNewest(events, id) <= PaidInRows(events, id)
    ensures PaidWhenNewest(events, id) == PaidInRows(events, id) <==> EachRowIsNewest(events, id)
  {
    if events == [] {
      assert EachRowIsNewest(events, id);
    } else {
      hide EachRowIsNewest, IsNewest, InsertsRow;
      var ev := events[|events| - 1];
      NewestAreRowsIff(events[..|events| - 1], id);
      EachRowIsNewestSteps(events, id);
      if ev.eventType.StreamWithdrawn? && IsNewest(events) {
        NewestInserts(events);
      }
      if InsertsRow(events) {
        InsertersWithdraw(events);
      }
      assert ev in events;
    }
  }

  lemma InsertersWithdraw(events: seq<RawEvent>)
    requires events != [] && InsertsRow(events)
    ensures events[|events| - 1].eventType.StreamWithdrawn?
  {
  }

  /** The withdrawn column of a stream never exceeds the sum of its withdrawal rows, and equals it exactly
      when every row that pays was inserted by an event newer than everything before it on the stream. */
  lemma CounterIsRowSumIff(events: seq<RawEvent>, id: string)
    requires IngestAll(NoRows(), events).Ok? && id in IngestAll(NoRows(), events).value.streams && NoneNegative(events, id)
    ensures var t := IngestAll(NoRows(), events).value;
            && t.streams[id].withdrawn <= RowSum(t.withdrawals, id)
            && (t.streams[id].withdrawn == RowSum(t.withdrawals, id) <==> EachRowIsNewest(events, id))
  {
    hide IngestAll, EachRowIsNewest, RowSum, PaidInRows, PaidWhenNewest, Highest;
    WithdrawnCountsNewest(events, id);
    RowsAreInserted(events, id);
    NewestAreRowsIff(events, id);
  }

  /** A withdrawal in the ledger of the pause before it has a row and is not counted. */
  lemma SameLedgerIsNotCounted(p: RawEvent, w: RawEvent)
    requires p.eventType.StreamPaused? && w.eventType.StreamWithdrawn? && p.data.streamId == w.data.streamId
    requires p.ledger == w.ledger && w.data.amount > 0 && RowFits(Proposed(p)) && RowFits(Proposed(w))
    ensures && IngestAll(NoRows(), [p, w]).Ok?
            && var t := IngestAll(NoRows(), [p, w]).value;
               && w.data.streamId in t.streams && t.streams[w.data.streamId].withdrawn == 0
               && RowSum(t.withdrawals, w.data.streamId) == w.data.amount
  {
    hide RowSum;
    assert [p, w][..1] == [p] && [p][..0] == [];
    assert IngestAll(NoRows(), [p]) == IngestEvent(NoRows(), p);
    var rows: map<WithdrawalKey, Withdrawal> := map[];
    NoRowsYet(w.data.streamId);
    RowSumGrows(rows, w.data.streamId, KeyOfWithdrawal(w), Withdrawal(w.data.recipient, w.data.amount));
  }

  // ---- withdrawals need their stream -------------------------------------------------

  /** The foreign key of the withdrawals table. */
  ghost predicate Referenced(t: Tables) {
    forall key :: key in t.withdrawals ==> key.streamId in t.streams
  }

  ghost predicate Opens(ev: RawEvent, id: string) {
    OnStream(ev.eventType) && !ev.eventType.StreamWithdrawn? && ev.data.streamId == id
  }

  lemma IngestKeepsReferences(t: Tables, ev: RawEvent)
    requires Referenced(t) && IngestEvent(t, ev).Ok?
    ensures Referenced(IngestEvent(t, ev).value)
    ensures ev.eventType.StreamWithdrawn? ==> ev.data.streamId in t.streams
  {
    hide Merged, Proposed, RowFits, Fits, VoteFits, VoteIn, KeyOfVote, Overwritten;
  }

  /** From empty tables, a stream has a row exactly when some event other than a withdrawal named it. */
  lemma {:induction false} RowsAreOpened(events: seq<RawEvent>, id: string)
    requires IngestAll(NoRows(), events).Ok?
    ensures Referenced(IngestAll(NoRows(), events).value)
    ensures id in IngestAll(NoRows(), events).value.streams <==> exists i :: 0 <= i < |events| && Opens(events[i], id)
  {
    if events != [] {
      var n := |events| - 1;
      RowsAreOpened(events[..n], id);
      var before := IngestAll(NoRows(), events[..n]).value;
      IngestKeepsReferences(before, events[n]);
      OneMoreEvent(before, events[n], id);
      if i :| 0 <= i < n && Opens(events[..n][i], id) {
        assert Opens(events[i], id);
      }
      if i :| 0 <= i < |events| && Opens(events[i], id) {
        assert i < n ==> Opens(events[..n][i], id);
      }
    }
  }

  lemma {:induction false} RowsFit(events: seq<RawEvent>, id: string)
    requires IngestAll(NoRows(), events).Ok?
    ensures id in IngestAll(NoRows(), events).value.streams ==> RowFits(IngestAll(NoRows(), events).value.streams[id])
  {
    if events != [] {
      RowsFit(events[..|events| - 1], id);
      OneMoreFits(IngestAll(NoRows(), events[..|events| - 1]).value, events[|events| - 1], id);
    }
  }

  /** Exactly when a withdrawal can be folded after `events`: they could, something other than a withdrawal
      has named its stream, its own values are in range, and so is the counter if it is to be counted. */
  lemma WithdrawalNeedsItsStream(events: seq<RawEvent>, ev: RawEvent)
    requires ev.eventType.StreamWithdrawn?
    ensures IngestAll(NoRows(), events + [ev]).Ok? <==>
            && IngestAll(NoRows(), events).Ok?
            && (exists i :: 0 <= i < |events| && Opens(events[i], ev.data.streamId))
            && RowFits(Proposed(ev))
            && (IsNewest(events + [ev]) ==> Fits(PaidWhenNewest(events, ev.data.streamId) + ev.data.amount))
  {
    hide PaidWhenNewest, Highest, Opens, IngestAll, IngestEvent, Proposed, RowFits, Fits, Referenced;
    var id := ev.data.streamId;
    IngestOneMore(NoRows(), events, ev);
    assert (events + [ev])[..|events|] == events;
    if IngestAll(NoRows(), events).Ok? {
      RowsAreOpened(events, id);
      RowsFit(events, id);
      WithdrawnCountsNewest(events, id);
      WithdrawalFoldsIff(IngestAll(NoRows(), events).value, ev);
    }
  }

  lemma IngestOneMore(t: Tables, events: seq<RawEvent>, ev: RawEvent)
    ensures IngestAll(t, events + [ev]) ==
            if IngestAll(t, events).Err? then IngestAll(t, events) else IngestEvent(IngestAll(t, events).value, ev)
  {
    hide IngestEvent;
    assert (events + [ev])[..|events|] == events;
  }

  lemma WithdrawalFoldsIff(t: Tables, ev: RawEvent)
    requires ev.eventType.StreamWithdrawn? && Referenced(t)
    requires ev.data.streamId in t.streams ==> RowFits(t.streams[ev.data.streamId])
    ensures IngestEvent(t, ev).Ok? <==>
            && ev.data.streamId in t.streams && RowFits(Proposed(ev))
            && (ev.ledger > t.streams[ev.data.streamId].updatedLedger ==> Fits(t.streams[ev.data.streamId].withdrawn + ev.data.amount))
  {
    hide VoteFits, VoteIn, KeyOfVote, Overwritten;
    assert RowFits(Proposed(ev)) ==> Fits(ev.ledger) && Fits(ev.data.amount);
    assert KeyOfWithdrawal(ev).streamId == ev.data.streamId;
  }

  // ---- the handlers ------------------------------------------------------------------

  /** A statement either fails, aborting the transaction, or does what the fold says. */
  ghost predicate Follows(ok: bool, result: Result<Tables, Failure>, after: Tables) {
    (ok <==> result.Ok?) && (ok ==> after == result.value)
  }

  /** A database client inside a transaction. */
  class Client {
    var raw: map<RawKey, Data>
    var streams: map<string, Stream>
    var withdrawals: map<WithdrawalKey, Withdrawal>
    var votes: map<VoteKey, Vote>
    var cursor: Option<int>

    constructor ()
      ensures View() == NoRows() && cursor == Some(0)
    {
      raw, streams, withdrawals, votes, cursor := map[], map[], map[], map[], Some(0);
    }

    ghost function View(): Tables
      reads this
    {
      Tables(raw, streams, withdrawals, votes)
    }

    /** INSERT ... ON CONFLICT (stream_id) DO UPDATE. */
    method Upsert(id: string, row: Stream, update: Stream -> Stream) returns (ok: bool)
      modifies `streams
      ensures ok <==> RowFits(row) && (id in old(streams) ==> RowFits(update(old(streams)[id])))
      ensures streams == if ok then old(streams)[id := if id in old(streams) then update(old(streams)[id]) else row] else old(streams)
    {
      if !RowFits(row) {
        return false;
      }
      if id !in streams {
        streams := streams[id := row];
        return true;
      }
      var updated := update(streams[id]);
      if !RowFits(updated) {
        return false;
      }
      streams := streams[id := updated];
      ok := true;
    }

    /** The values every stream statement inserts. */
    function NewRow(ev: RawEvent): Stream {
      Stream(ev.data.sender, ev.data.recipient, ev.data.token, ev.data.deposit, ev.data.rate, 0, false, false, ev.ledger)
    }

    method HandleStreamWithdrawn(ev: RawEvent) returns (ok: bool)
      requires ev.eventType.StreamWithdrawn?
      modifies `streams, `withdrawals
      ensures Follows(ok, FoldEvent(old(View()), ev), View())
    {
      if !Fits(ev.ledger) || !Fits(ev.data.amount) {
        return false;
      }
      var key := WithdrawalKey(ev.ledger, ev.txHash, ev.data.streamId);
      if key !in withdrawals {
        if ev.data.streamId !in streams {
          return false;
        }
        withdrawals := withdrawals[key := Withdrawal(ev.data.recipient, ev.data.amount)];
      }
      ok := Upsert(ev.data.streamId, NewRow(ev).(withdrawn := ev.data.amount),
                   (s: Stream) => s.(withdrawn := if ev.ledger > s.updatedLedger then s.withdrawn + ev.data.amount else s.withdrawn,
                                     updatedLedger := Larger(s.updatedLedger, ev.ledger)));
    }

    method HandleStreamCancelled(ev: RawEvent) returns (ok: bool)
      requires ev.eventType.StreamCancelled?
      modifies `streams
      ensures Follows(ok, FoldEvent(old(View()), ev), View())
    {
      ok := Upsert(ev.data.streamId, NewRow(ev).(cancelled := true),
                   (s: Stream) => s.(cancelled := true, updatedLedger := Larger(s.updatedLedger, ev.ledger)));
    }

    method HandleStreamPaused(ev: RawEvent) returns (ok: bool)
      requires ev.eventType.StreamPaused?
      modifies `streams
      ensures Follows(ok, FoldEvent(old(View()), ev), View())
    {
      ok := Upsert(ev.data.streamId, NewRow(ev).(paused := true),
                   (s: Stream) => s.(paused := true, updatedLedger := Larger(s.updatedLedger, ev.ledger)));
    }

    method HandleStreamResumed(ev: RawEvent) returns (ok: bool)
      requires ev.eventType.StreamResumed?
      modifies `streams
      ensures Follows(ok, FoldEvent(old(View()), ev), View())
    {
      ok := Upsert(ev.data.streamId, NewRow(ev),
                   (s: Stream) => s.(paused := false, updatedLedger := Larger(s.updatedLedger, ev.ledger)));
    }

    method HandleStreamToppedUp(ev: RawEvent) returns (ok: bool)
      requires ev.eventType.StreamToppedUp?
      modifies `streams
      ensures Follows(ok, FoldEvent(old(View()), ev), View())
    {
      ok := Upsert(ev.data.streamId, NewRow(ev).(deposit := ev.data.amount),
                   (s: Stream) => s.(deposit := if ev.ledger > s.updatedLedger then s.deposit + ev.data.amount else s.deposit,
                                     updatedLedger := Larger(s.updatedLedger, ev.ledger)));
    }

    method HandleStreamClawback(ev: RawEvent) returns (ok: bool)
      requires ev.eventType.StreamClawback?
      modifies `streams
      ensures Follows(ok, FoldEvent(old(View()), ev), View())
    {
      ok := Upsert(ev.data.streamId, NewRow(ev).(cancelled := true),
                   (s: Stream) => s.(cancelled := true, updatedLedger := Larger(s.updatedLedger, ev.ledger)));
    }

    method HandleXferRec(ev: RawEvent) returns (ok: bool)
      requires ev.eventType.XferRec?
      modifies `streams
      ensures Follows(ok, FoldEvent(old(View()), ev), View())
    {
      ok := Upsert(ev.data.streamId, NewRow(ev).(recipient := ev.data.newRecipient),
                   (s: Stream) => s.(recipient := if ev.ledger > s.updatedLedger then ev.data.newRecipient else s.recipient,
                                     updatedLedger := Larger(s.updatedLedger, ev.ledger)));
    }

    /** The upsert shared by the three vote handlers. */
    method UpsertVote(key: VoteKey, vote: Vote) returns (ok: bool)
      modifies `votes
      ensures ok <==> VoteFits(vote)
      ensures votes == if ok then old(votes)[key := Overwritten(Lookup(old(votes), key), vote)] else old(votes)
    {
      if !VoteFits(vote) {
        return false;
      }
      if key in votes {
        var row := votes[key];
        votes := votes[key := Vote(vote.choice, Larger(row.ledger, vote.ledger), if vote.ledger >= row.ledger then vote.txHash else row.txHash)];
      } else {
        votes := votes[key := vote];
      }
      ok := true;
    }

    method HandleLoanVote(ev: RawEvent) returns (ok: bool)
      requires ev.eventType.LoanVote?
      modifies `votes
      ensures Follows(ok, FoldEvent(old(View()), ev), View())
    {
      ok := UpsertVote(VoteKey(LoanVotes, ev.data.subject, ev.data.voter), Vote(Ballot(ev.data.support, ev.data.weight), ev.ledger, ev.txHash));
    }

    method HandleTreasuryVote(ev: RawEvent) returns (ok: bool)
      requires ev.eventType.TreasuryVote?
      modifies `votes
      ensures Follows(ok, FoldEvent(old(View()), ev), View())
    {
      ok := UpsertVote(VoteKey(TreasuryVotes, ev.data.subject, ev.data.voter), Vote(Ballot(ev.data.support, ev.data.weight), ev.ledger, ev.txHash));
    }

    method HandleTreasuryReveal(ev: RawEvent) returns (ok: bool)
      requires ev.eventType.TreasuryReveal?
      modifies `votes
      ensures Follows(ok, FoldEvent(old(View()), ev), View())
    {
      ok := UpsertVote(VoteKey(TreasuryReveals, ev.data.subject, ev.data.voter), Vote(Sealed(ev.data.voteHash), ev.ledger, ev.txHash));
    }

    /** Routes an event to its handler; types without one are only kept raw. */
    method Fold(ev: RawEvent) returns (ok: bool)
      modifies `streams, `withdrawals, `votes
      ensures Follows(ok, FoldEvent(old(View()), ev), View())
    {
      hide FoldEvent;
      match ev.eventType {
        case StreamWithdrawn => ok := HandleStreamWithdrawn(ev);
        case StreamCancelled => ok := HandleStreamCancelled(ev);
        case StreamPaused => ok := HandleStreamPaused(ev);
        case StreamResumed => ok := HandleStreamResumed(ev);
        case StreamToppedUp => ok := HandleStreamToppedUp(ev);
        case StreamClawback => ok := HandleStreamClawback(ev);
        case XferRec => ok := HandleXferRec(ev);
        case LoanVote => ok := HandleLoanVote(ev);
        case TreasuryVote => ok := HandleTreasuryVote(ev);
        case TreasuryReveal => ok := HandleTreasuryReveal(ev);
        case Unhandled(_) =>
          assert FoldEvent(View(), ev) == Ok(View()) by { UnhandledFoldsToNothing(View(), ev); }
          ok := true;
      }
    }
  }

  lemma UnhandledFoldsToNothing(t: Tables, ev: RawEvent)
    requires ev.eventType.Unhandled?
    ensures FoldEvent(t, ev) == Ok(t)
  {
  }
}
