/** Checkpointed voting weight (contracts/governor/src/storage.rs, contracts/governor/src/lib.rs): one
    compacted list per account against the full log of recordings. */
module Checkpoints {
  import opened Base

  datatype Error = NotAuthorized

  datatype Checkpoint = Checkpoint(ledger: nat, weight: nat)

  // ---- one account's list ------------------------------------------------------------

  ghost predicate Increasing(cps: seq<Checkpoint>) {
    forall i, j :: 0 <= i < j < |cps| ==> cps[i].ledger < cps[j].ledger
  }

  /** The list after recording `weight` at `ledger`: a last entry at or after `ledger` is overwritten. */
  function Recorded(cps: seq<Checkpoint>, ledger: nat, weight: nat): (r: seq<Checkpoint>)
    ensures r != [] && r[|r| - 1] == Checkpoint(ledger, weight)
  {
    if cps != [] && cps[|cps| - 1].ledger >= ledger then cps[|cps| - 1 := Checkpoint(ledger, weight)]
    else cps + [Checkpoint(ledger, weight)]
  }

  /** Exactly when recording keeps ledgers strictly increasing: the entry before the last must be older. */
  lemma RecordedIncreases(cps: seq<Checkpoint>, ledger: nat, weight: nat)
    requires Increasing(cps)
    ensures Increasing(Recorded(cps, ledger, weight)) <==> |cps| < 2 || cps[|cps| - 2].ledger < ledger
  {
    var n := |cps|;
    var r := Recorded(cps, ledger, weight);
    if n >= 2 {
      assert cps[n - 2].ledger < cps[n - 1].ledger;
      assert r[n - 2] == cps[n - 2];
      if cps[n - 2].ledger >= ledger {
        assert r[n - 2].ledger >= r[n - 1].ledger;
      }
    }
  }

  /** Weight of the last entry at or before `ledger`, zero without one. */
  function ValueAt(cps: seq<Checkpoint>, ledger: nat): nat {
    if cps == [] then 0
    else if cps[|cps| - 1].ledger <= ledger then cps[|cps| - 1].weight
    else ValueAt(cps[..|cps| - 1], ledger)
  }

  /** Scanning from the front may stop at the first entry past `ledger`. */
  lemma {:induction false} ScanStops(cps: seq<Checkpoint>, ledger: nat, i: nat)
    requires Increasing(cps) && i <= |cps|
    requires i > 0 ==> cps[i - 1].ledger <= ledger
    requires i < |cps| ==> ledger < cps[i].ledger
    ensures ValueAt(cps, ledger) == if i == 0 then 0 else cps[i - 1].weight
    decreases |cps|
  {
    if i < |cps| {
      assert i < |cps| - 1 ==> cps[i].ledger < cps[|cps| - 1].ledger;
      ScanStops(cps[..|cps| - 1], ledger, i);
    }
  }

  /** A recording is seen from its ledger on, and nothing older is disturbed. */
  lemma RecordedValue(cps: seq<Checkpoint>, ledger: nat, weight: nat, q: nat)
    ensures ValueAt(Recorded(cps, ledger, weight), q) == if ledger <= q then weight else ValueAt(cps, q)
  {
    var r := Recorded(cps, ledger, weight);
    if q < ledger {
      if cps != [] && cps[|cps| - 1].ledger >= ledger {
        assert r[..|r| - 1] == cps[..|cps| - 1];
      } else {
        assert r[..|r| - 1] == cps;
      }
    }
  }

  // ---- the log of recordings ---------------------------------------------------------

  datatype Recording = Recording(account: Address, ledger: nat, weight: nat)

  /** Weight given by the last recording for `account` at or before `ledger`, zero without one. */
  ghost function WeightAt(log: seq<Recording>, account: Address, ledger: nat): nat {
    if log == [] then 0
    else if log[|log| - 1].account == account && log[|log| - 1].ledger <= ledger then log[|log| - 1].weight
    else WeightAt(log[..|log| - 1], account, ledger)
  }

  /** Whatever is recorded from ledger `from` on, weights at earlier ledgers stay what they were. */
  lemma {:induction false} PastIsFixed(log: seq<Recording>, more: seq<Recording>, from: nat, account: Address, ledger: nat)
    requires forall i :: 0 <= i < |more| ==> from <= more[i].ledger
    requires ledger < from
    ensures WeightAt(log + more, account, ledger) == WeightAt(log, account, ledger)
    decreases |more|
  {
    if more == [] {
      assert log + more == log;
    } else {
      assert (log + more)[..|log + more| - 1] == log + more[..|more| - 1];
      PastIsFixed(log, more[..|more| - 1], from, account, ledger);
    }
  }

  /** A list stands for the recordings of its account. */
  ghost predicate Compacts(cps: seq<Checkpoint>, log: seq<Recording>, account: Address, now: nat) {
    && cps != []
    && Increasing(cps)
    && cps[|cps| - 1].ledger <= now
    && forall ledger :: ValueAt(cps, ledger) == WeightAt(log, account, ledger)
  }

  ghost predicate Logged(log: seq<Recording>, account: Address) {
    exists i :: 0 <= i < |log| && log[i].account == account
  }

  lemma {:induction false} UnloggedIsZero(log: seq<Recording>, account: Address, ledger: nat)
    requires !Logged(log, account)
    ensures WeightAt(log, account, ledger) == 0
  {
    if log != [] {
      var earlier := log[..|log| - 1];
      assert log[|log| - 1].account != account;
      forall i | 0 <= i < |earlier| ensures earlier[i].account != account {
        assert earlier[i] == log[i];
      }
      UnloggedIsZero(earlier, account, ledger);
    }
  }

  /** One list per account with a recording. */
  ghost predicate BookOk(lists: map<Address, seq<Checkpoint>>, log: seq<Recording>, now: nat) {
    && (forall a :: a in lists ==> Compacts(lists[a], log, a, now))
    && (forall a :: a in lists <==> Logged(log, a))
    && (forall i :: 0 <= i < |log| ==> log[i].ledger <= now)
  }

  lemma RecordingCompacts(cps: seq<Checkpoint>, log: seq<Recording>, account: Address, now: nat, weight: nat)
    requires cps == [] ==> !Logged(log, account)
    requires cps != [] ==> Compacts(cps, log, account, now)
    ensures Compacts(Recorded(cps, now, weight), log + [Recording(account, now, weight)], account, now)
  {
    var log' := log + [Recording(account, now, weight)];
    assert log'[..|log|] == log;
    RecordedIncreases(cps, now, weight);
    if |cps| >= 2 {
      assert cps[|cps| - 2].ledger < cps[|cps| - 1].ledger;
    }
    forall q ensures ValueAt(Recorded(cps, now, weight), q) == WeightAt(log', account, q) {
      RecordedValue(cps, now, weight, q);
      if cps == [] {
        UnloggedIsZero(log, account, q);
      }
    }
  }

  lemma RecordingKeepsBook(lists: map<Address, seq<Checkpoint>>, log: seq<Recording>, now: nat, account: Address, weight: nat)
    requires BookOk(lists, log, now)
    ensures BookOk(lists[account := Recorded(if account in lists then lists[account] else [], now, weight)],
                   log + [Recording(account, now, weight)], now)
  {
    var lists' := lists[account := Recorded(if account in lists then lists[account] else [], now, weight)];
    var log' := log + [Recording(account, now, weight)];
    forall a | a in lists' ensures Compacts(lists'[a], log', a, now) {
      if a == account {
        RecordingCompacts(if account in lists then lists[account] else [], log, account, now, weight);
      } else {
        assert Compacts(lists[a], log, a, now);
        assert log'[..|log|] == log;
      }
    }
    forall a ensures a in lists' <==> Logged(log', a) {
      assert log'[|log|].account == account;
      if Logged(log, a) {
        var i :| 0 <= i < |log| && log[i].account == a;
        assert log'[i].account == a;
      } else if a != account {
        forall i | 0 <= i < |log'| ensures log'[i].account != a {
          assert i < |log| ==> log[i] == log'[i];
        }
      }
    }
  }

  /** The governor's checkpoint storage. The log is what the lists must remember. */
  class WeightBook {
    var lists: map<Address, seq<Checkpoint>>
    var enabled: bool
    var now: nat
    ghost var log: seq<Recording>

    ghost predicate Valid()
      reads this
    {
      BookOk(lists, log, now) && (enabled <==> log != [])
    }

    constructor (now: nat)
      ensures Valid() && this.now == now && log == []
    {
      this.now, lists, enabled, log := now, map[], false, [];
    }

    method AdvanceLedger(to: nat)
      requires Valid() && now <= to
      modifies `now
      ensures Valid() && now == to
    {
      now := to;
    }

    /** Records a weight at the current ledger; weights at earlier ledgers stay as they were. */
    method RecordCheckpoint(account: Address, weight: nat)
      requires Valid()
      modifies `lists, `enabled, `log
      ensures Valid() && log == old(log) + [Recording(account, now, weight)]
      ensures forall a, ledger :: WeightAt(log, a, ledger) ==
                                  if a == account && now <= ledger then weight else WeightAt(old(log), a, ledger)
    {
      hide BookOk;
      RecordingKeepsBook(lists, log, now, account, weight);
      assert (log + [Recording(account, now, weight)])[..|log|] == log;
      log := log + [Recording(account, now, weight)];
      enabled := true;
      var cps := if account in lists then lists[account] else [];
      var len := |cps|;
      if len > 0 {
        var last := cps[len - 1];
        if last.ledger >= now {
          lists := lists[account := cps[len - 1 := Checkpoint(now, weight)]];
          return;
        }
      }
      lists := lists[account := cps + [Checkpoint(now, weight)]];
    }

    method CheckpointBalance(isAdmin: bool, voter: Address, weight: nat) returns (failure: Option<Error>)
      requires Valid()
      modifies `lists, `enabled, `log
      ensures Valid()
      ensures failure == if isAdmin then None else Some(NotAuthorized)
      ensures log == if failure.None? then old(log) + [Recording(voter, now, weight)] else old(log)
    {
      if !isAdmin {
        return Some(NotAuthorized);
      }
      RecordCheckpoint(voter, weight);
      failure := None;
    }

    /** The weight last recorded at or before `ledger`; nothing at all only while nothing was ever recorded. */
    method GetCheckpointWeight(account: Address, ledger: nat) returns (weight: Option<nat>)
      requires Valid()
      ensures weight == if log == [] then None else Some(WeightAt(log, account, ledger))
    {
      if account in lists {
        var cps := lists[account];
        assert Compacts(cps, log, account, now);
        var matched := 0;
        var i := 0;
        while i < |cps|
          invariant 0 <= i <= |cps|
          invariant i > 0 ==> cps[i - 1].ledger <= ledger
          invariant matched == if i == 0 then 0 else cps[i - 1].weight
        {
          if cps[i].ledger <= ledger {
            matched := cps[i].weight;
          } else {
            break;
          }
          i := i + 1;
        }
        ScanStops(cps, ledger, i);
        return Some(matched);
      }
      UnloggedIsZero(log, account, ledger);
      weight := if enabled then Some(0) else None;
    }

    method GetPriorVotes(account: Address, ledger: nat) returns (weight: nat)
      requires Valid()
      ensures weight == WeightAt(log, account, ledger)
    {
      var found := GetCheckpointWeight(account, ledger);
      match found {
        case Some(w) => weight := w;
        case None => weight := 0;
      }
    }
  }
}
