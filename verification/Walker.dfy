/** The bounded round-robin walker that keeps stream addresses alive
    (contracts/factory/src/ttl.rs). */
module Walker {
  import opened Base

  const BATCH_LIMIT: nat := 8

  /** The id `k` places after `cursor` in a registry of `count` ids, by saturating 64-bit addition. */
  function Visit(cursor: nat, count: nat, k: nat): nat
    requires count > 0
  {
    SatAdd(cursor, k, U64_MAX) % count
  }

  /** The ids one call visits. */
  ghost function CallVisits(cursor: nat, count: nat): set<nat>
    requires count > 0
  {
    set k | 1 <= k <= 8 :: Visit(cursor, count, k)
  }

  /** The ids visited by consecutive calls, the `i`-th of which finds `counts[i]` streams. */
  ghost function RunVisits(cursor: nat, counts: seq<nat>): set<nat>
    decreases |counts|
  {
    if counts == [] then {}
    else if counts[0] == 0 then RunVisits(cursor, counts[1..])
    else CallVisits(cursor, counts[0]) + RunVisits(Visit(cursor, counts[0], BATCH_LIMIT), counts[1..])
  }

  /** How many of the next `k` visits find an entry. */
  ghost function LiveVisits(cursor: nat, count: nat, live: set<nat>, k: nat): nat
    requires count > 0
  {
    if k == 0 then 0 else LiveVisits(cursor, count, live, k - 1) + if Visit(cursor, count, k) in live then 1 else 0
  }

  class AddressBook {
    var streamCount: nat
    var lastBumpedId: Option<nat>
    var streamAddr: set<nat>      // ids whose address entry is in storage
    ghost var bumped: set<nat>    // ids whose lifetime has been extended

    /** The stored cursor is always the id of an existing stream. */
    ghost predicate Valid()
      reads this
    {
      && streamCount <= U64_MAX
      && (lastBumpedId.Some? ==> lastBumpedId.value < streamCount)
    }

    constructor ()
      ensures Valid() && streamCount == 0
    {
      streamCount, lastBumpedId, streamAddr, bumped := 0, None, {}, {};
    }

    /** Streams are only ever added. */
    method AddStream()
      requires Valid() && streamCount < U64_MAX
      modifies `streamCount, `streamAddr
      ensures Valid() && streamCount == old(streamCount) + 1
      ensures streamAddr == old(streamAddr) + {old(streamCount)}
    {
      streamAddr := streamAddr + {streamCount};
      streamCount := streamCount + 1;
    }

    /** One bounded pass: exactly the next eight ids behind the cursor are visited, those with an
        entry are extended, and the cursor moves to the last one. */
    method BumpPersistentBucket() returns (touched: nat)
      requires Valid()
      modifies `lastBumpedId, `bumped
      ensures Valid()
      ensures streamCount == 0 ==> touched == 0 && lastBumpedId == old(lastBumpedId) && bumped == old(bumped)
      ensures streamCount > 0 ==>
                var cursor := old(lastBumpedId).GetOr(0);
                && lastBumpedId == Some(Visit(cursor, streamCount, 8))
                && bumped == old(bumped) + CallVisits(cursor, streamCount) * streamAddr
      ensures streamCount > 0 ==> touched == LiveVisits(old(lastBumpedId).GetOr(0), streamCount, streamAddr, 8)
    {
      if streamCount == 0 {
        return 0;
      }
      var cursor := lastBumpedId.GetOr(0);
      var newLast := cursor;
      touched := 0;
      ghost var visited: set<nat> := {};
      for i := 0 to BATCH_LIMIT
        invariant touched == LiveVisits(cursor, streamCount, streamAddr, i)
        invariant i > 0 ==> newLast == Visit(cursor, streamCount, i)
        invariant visited == set k | 1 <= k <= i :: Visit(cursor, streamCount, k)
        invariant bumped == old(bumped) + visited * streamAddr
      {
        var next := SatAdd(SatAdd(cursor, 1, U64_MAX), i, U64_MAX);
        var id := next % streamCount;
        assert id == Visit(cursor, streamCount, i + 1);
        visited := visited + {id};
        if id in streamAddr {
          bumped := bumped + {id};
          touched := touched + 1;
        }
        newLast := id;
      }
      lastBumpedId := Some(newLast);
    }
  }

  // ---- fairness ----------------------------------------------------------------------

  /** Steps that saturation may waste on the way round: none while eight more than any id fits 64 bits. */
  function Slack(limit: nat): nat { SatSub(limit, U64_MAX - BATCH_LIMIT + 1) }

  /** Steps enough for a walk standing at `c` to reach `id`, if the registry may still grow to `limit`. */
  function Distance(c: nat, id: nat, limit: nat): int {
    if c < id then id - c else limit - c + id + Slack(limit)
  }

  /** Euclidean quotient and remainder are the only ones. */
  lemma RemainderIs(x: nat, n: nat, q: nat, r: nat)
    requires r < n && x == n * q + r
    ensures x % n == r
  {
    var q' := x / n;
    if q < q' {
      MulOrder(q, q', n);
      assert false;
    } else if q' < q {
      MulOrder(q', q, n);
      assert false;
    }
  }

  lemma NextVisit(c: nat, count: nat, k: nat)
    requires count > 0 && c + k < U64_MAX
    ensures Visit(c, count, k + 1) == if Visit(c, count, k) + 1 == count then 0 else Visit(c, count, k) + 1
  {
    var q, r := (c + k) / count, (c + k) % count;
    assert c + k == count * q + r;
    if r + 1 == count {
      assert count * (q + 1) == count * q + count;
      RemainderIs(c + k + 1, count, q + 1, 0);
    } else {
      RemainderIs(c + k + 1, count, q, r + 1);
    }
  }

  /** Steps inside one call either pass `id` or bring the walk as much closer to it. */
  lemma {:induction false} WalkApproaches(c: nat, count: nat, id: nat, limit: nat, k: nat)
    requires id < count <= limit <= U64_MAX && c < count && k <= BATCH_LIMIT
    ensures (exists j :: 1 <= j <= k && Visit(c, count, j) == id)
            || Distance(Visit(c, count, k), id, limit) + k <= Distance(c, id, limit)
  {
    if k == 0 {
      RemainderIs(c, count, 0, c);
    } else if c + k > U64_MAX {
      SaturatedWalk(c, count, id, limit, k);
    } else {
      WalkApproaches(c, count, id, limit, k - 1);
      NextVisit(c, count, k - 1);
      VisitExists(c, count, k - 1);
      hide Visit;
      if exists j :: 1 <= j <= k - 1 && Visit(c, count, j) == id {
        var j :| 1 <= j <= k - 1 && Visit(c, count, j) == id;
        assert 1 <= j <= k && Visit(c, count, j) == id;
      } else if Visit(c, count, k) == id {
        assert 1 <= k <= k && Visit(c, count, k) == id;
      }
    }
  }

  /** A walk that runs into the 64-bit limit has been once around the end of the registry. */
  lemma SaturatedWalk(c: nat, count: nat, id: nat, limit: nat, k: nat)
    requires id < count <= limit <= U64_MAX && c < count && k <= BATCH_LIMIT && c + k > U64_MAX
    ensures (exists j :: 1 <= j <= k && Visit(c, count, j) == id)
            || Distance(Visit(c, count, k), id, limit) + k <= Distance(c, id, limit)
  {
    RemainderIs(U64_MAX, count, 1, U64_MAX - count);
    if c < id {
      RemainderIs(id, count, 0, id);
      assert 1 <= id - c <= k && Visit(c, count, id - c) == id;
    } else if count + id <= U64_MAX {
      RemainderIs(count + id, count, 1, id);
      assert 1 <= count + id - c <= k && Visit(c, count, count + id - c) == id;
    }
  }

  lemma VisitExists(c: nat, count: nat, k: nat)
    requires count > 0
    ensures Visit(c, count, k) < count
  {
  }

  lemma {:induction false} RunReaches(c: nat, counts: seq<nat>, id: nat, limit: nat)
    requires limit <= U64_MAX && forall i :: 0 <= i < |counts| ==> id < counts[i] <= limit
    requires forall i, j :: 0 <= i < j < |counts| ==> counts[i] <= counts[j]
    requires counts != [] ==> c < counts[0]
    requires 1 <= Distance(c, id, limit) <= BATCH_LIMIT * |counts|
    ensures id in RunVisits(c, counts)
    decreases |counts|
  {
    if counts != [] {
      WalkApproaches(c, counts[0], id, limit, BATCH_LIMIT);
      var c' := Visit(c, counts[0], BATCH_LIMIT);
      if !(exists j :: 1 <= j <= BATCH_LIMIT && Visit(c, counts[0], j) == id) {
        RunReaches(c', counts[1..], id, limit);
      }
    }
  }

  /** While the registry never exceeds `limit` ids, ceil(limit / 8) consecutive calls visit every id that
      existed at the first of them, whatever is created in between; within eight of the 64-bit limit, where
      a call may waste steps, it takes as many more as `Slack` says. */
  lemma WalkerIsFair(cursor: nat, counts: seq<nat>, limit: nat)
    requires limit <= U64_MAX && 8 * |counts| >= limit + Slack(limit)
    requires forall i :: 0 <= i < |counts| ==> counts[i] <= limit
    requires forall i, j :: 0 <= i < j < |counts| ==> counts[i] <= counts[j]
    requires counts != [] && counts[0] > 0 ==> cursor < counts[0]
    ensures counts != [] ==> forall id: nat :: id < counts[0] ==> id in RunVisits(cursor, counts)
  {
    if counts != [] {
      forall id: nat | id < counts[0] ensures id in RunVisits(cursor, counts) {
        RunReaches(cursor, counts, id, limit);
      }
    }
  }

  /** Such a call wastes seven of its eight steps on one id. */
  lemma SaturatedCallRepeats()
    ensures CallVisits(U64_MAX - 1, U64_MAX) == {0} && Slack(U64_MAX) == 7
  {
    assert Visit(U64_MAX - 1, U64_MAX, 1) in CallVisits(U64_MAX - 1, U64_MAX);
  }
}
