/** Governance proposals: their status index, the stake held in escrow for each, and their terminal
    states (contracts/governor/src/lib.rs, contracts/governor/src/storage.rs). */
module Proposals {
  import opened Base
  import opened Tokens

  const MIN_EXECUTION_DELAY: nat := 604_800

  datatype Error =
    | NotAuthorized | InvalidParam | ContractPaused | ProposalStakeNotConfigured | ProposalNotFound
    | ProposalNotPending | TimelockNotMet | ProposalExpired | QuorumNotMet | HostTrap

  datatype Status = Pending | Executed | Cancelled | Active | Defeated

  datatype Proposal = Proposal(author: Address, createdAt: nat, window: nat, status: Status, forVotes: nat, againstVotes: nat)

  datatype VoteRecord = VoteRecord(forVotes: nat, againstVotes: nat, abstainVotes: nat)

  /** Stake held for a proposal, and the token it was paid in. */
  datatype Stake = Stake(amount: nat, token: Address)

  // ---- the status index --------------------------------------------------------------

  function Listed(byStatus: map<Status, seq<nat>>, status: Status): seq<nat> {
    if status in byStatus then byStatus[status] else []
  }

  /** Each list holds exactly the proposals of its status, each once. */
  ghost predicate Lists(ids: seq<nat>, proposals: map<nat, Proposal>, status: Status) {
    NoDuplicates(ids) && forall id :: id in ids <==> id in proposals && proposals[id].status == status
  }

  ghost predicate IndexOk(byStatus: map<Status, seq<nat>>, proposals: map<nat, Proposal>) {
    forall status :: Lists(Listed(byStatus, status), proposals, status)
  }

  /** The index after moving `id` from one status to another. */
  ghost function Moved(byStatus: map<Status, seq<nat>>, id: nat, from: Status, to: Status): map<Status, seq<nat>> {
    var removed := byStatus[from := Without(Listed(byStatus, from), id)];
    removed[to := Listed(removed, to) + [id]]
  }

  /** The same for a move that may lead back to where it started. */
  ghost function Transferred(byStatus: map<Status, seq<nat>>, id: nat, from: Status, to: Status): map<Status, seq<nat>> {
    if from == to then byStatus else Moved(byStatus, id, from, to)
  }

  lemma MoveKeepsList(ids: seq<nat>, proposals: map<nat, Proposal>, id: nat, p: Proposal, status: Status)
    requires Lists(ids, proposals, status) && id in proposals && p.status != proposals[id].status
    ensures Lists(if status == proposals[id].status then Without(ids, id) else if status == p.status then ids + [id] else ids,
                  proposals[id := p], status)
  {
    hide Without;
    WithoutRemoves(ids, id);
  }

  lemma MoveKeepsIndex(byStatus: map<Status, seq<nat>>, proposals: map<nat, Proposal>, id: nat, p: Proposal)
    requires IndexOk(byStatus, proposals) && id in proposals && p.status != proposals[id].status
    ensures IndexOk(Moved(byStatus, id, proposals[id].status, p.status), proposals[id := p])
  {
    hide Without, Lists;
    var moved := Moved(byStatus, id, proposals[id].status, p.status);
    forall status ensures Lists(Listed(moved, status), proposals[id := p], status) {
      MoveKeepsList(Listed(byStatus, status), proposals, id, p, status);
    }
  }

  lemma SameStatusKeepsIndex(byStatus: map<Status, seq<nat>>, proposals: map<nat, Proposal>, id: nat, p: Proposal)
    requires IndexOk(byStatus, proposals) && id in proposals && p.status == proposals[id].status
    ensures IndexOk(byStatus, proposals[id := p])
  {
    forall status ensures Lists(Listed(byStatus, status), proposals[id := p], status) {
      assert Lists(Listed(byStatus, status), proposals, status);
    }
  }

  lemma NewKeepsIndex(byStatus: map<Status, seq<nat>>, proposals: map<nat, Proposal>, id: nat, p: Proposal)
    requires IndexOk(byStatus, proposals) && id !in proposals
    ensures IndexOk(byStatus[p.status := Listed(byStatus, p.status) + [id]], proposals[id := p])
    ensures id !in Listed(byStatus, p.status)
  {
    var grown := byStatus[p.status := Listed(byStatus, p.status) + [id]];
    forall status ensures Lists(Listed(grown, status), proposals[id := p], status) {
      assert Lists(Listed(byStatus, status), proposals, status);
    }
    assert Lists(Listed(byStatus, p.status), proposals, p.status);
  }

  /** Every proposal is listed under its status and nowhere else. */
  lemma ListedOnce(byStatus: map<Status, seq<nat>>, proposals: map<nat, Proposal>, id: nat, status: Status)
    requires IndexOk(byStatus, proposals) && id in proposals
    ensures id in Listed(byStatus, status) <==> status == proposals[id].status
    ensures NoDuplicates(Listed(byStatus, status))
  {
    assert Lists(Listed(byStatus, status), proposals, status);
  }

  ghost predicate InCreationOrder(ids: seq<nat>) {
    forall i, j :: 0 <= i < j < |ids| ==> ids[i] < ids[j]
  }

  /** A list documented as being in creation order keeps it through a move exactly when the proposal
      entering it is newer than its last one. */
  lemma MoveKeepsOrderIff(byStatus: map<Status, seq<nat>>, id: nat, from: Status, to: Status)
    requires from != to && InCreationOrder(Listed(byStatus, to))
    ensures InCreationOrder(Listed(Moved(byStatus, id, from, to), to)) <==>
            Listed(byStatus, to) == [] || Listed(byStatus, to)[|Listed(byStatus, to)| - 1] < id
  {
    var before, after := Listed(byStatus, to), Listed(Moved(byStatus, id, from, to), to);
    assert after == before + [id];
    if before != [] && before[|before| - 1] >= id {
      assert after[|before| - 1] >= after[|before|];
    }
  }

  // ---- escrow ------------------------------------------------------------------------

  /** Stakes of the first `n` proposals held in token `t`. */
  function StakeSum(stakes: map<nat, Stake>, t: Address, n: nat): nat {
    if n == 0 then 0
    else StakeSum(stakes, t, n - 1) + if n in stakes && stakes[n].token == t then stakes[n].amount else 0
  }

  lemma {:induction false} StakeSumIgnores(stakes: map<nat, Stake>, other: map<nat, Stake>, t: Address, n: nat)
    requires forall id :: 1 <= id <= n ==> (id in stakes <==> id in other) && (id in stakes ==> stakes[id] == other[id])
    ensures StakeSum(stakes, t, n) == StakeSum(other, t, n)
  {
    if n > 0 {
      StakeSumIgnores(stakes, other, t, n - 1);
    }
  }

  lemma {:induction false} StakeSumWithout(stakes: map<nat, Stake>, t: Address, n: nat, id: nat)
    requires id in stakes && 1 <= id <= n
    ensures StakeSum(stakes, t, n) == StakeSum(stakes - {id}, t, n) + if stakes[id].token == t then stakes[id].amount else 0
  {
    if id == n {
      StakeSumIgnores(stakes, stakes - {id}, t, n - 1);
    } else {
      StakeSumWithout(stakes, t, n - 1, id);
    }
  }

  /** The governor holds, of every token, what others gave it outright plus exactly the recorded stakes. */
  ghost predicate EscrowOk(balances: Balances, gifts: Balances, stakes: map<nat, Stake>, counter: nat, self: Address) {
    forall t :: BalanceOf(balances, t, self) == BalanceOf(gifts, t, self) + StakeSum(stakes, t, counter)
  }

  lemma GiftKeepsEscrow(balances: Balances, gifts: Balances, stakes: map<nat, Stake>, counter: nat, self: Address,
                        token: Address, from: Address, to: Address, amount: nat)
    requires EscrowOk(balances, gifts, stakes, counter, self) && from != self && amount <= BalanceOf(balances, token, from)
    ensures EscrowOk(Transfer(balances, token, from, to, amount).value,
                     if to == self then gifts[(token, self) := BalanceOf(gifts, token, self) + amount] else gifts,
                     stakes, counter, self)
  {
    hide Transfer;
    var after := Transfer(balances, token, from, to, amount).value;
    var gifts' := if to == self then gifts[(token, self) := BalanceOf(gifts, token, self) + amount] else gifts;
    forall t ensures BalanceOf(after, t, self) == BalanceOf(gifts', t, self) + StakeSum(stakes, t, counter) {
      TransferMoves(balances, token, from, to, amount, t, self);
    }
  }

  lemma DepositKeepsEscrow(balances: Balances, gifts: Balances, stakes: map<nat, Stake>, counter: nat, self: Address, author: Address, stake: Stake)
    requires EscrowOk(balances, gifts, stakes, counter, self) && author != self
    requires stake.amount <= BalanceOf(balances, stake.token, author)
    ensures EscrowOk(Transfer(balances, stake.token, author, self, stake.amount).value, gifts, stakes[counter + 1 := stake], counter + 1, self)
  {
    hide BalanceOf, Transfer;
    var stakes' := stakes[counter + 1 := stake];
    var after := Transfer(balances, stake.token, author, self, stake.amount).value;
    forall t ensures BalanceOf(after, t, self) == BalanceOf(gifts, t, self) + StakeSum(stakes', t, counter + 1) {
      TransferMoves(balances, stake.token, author, self, stake.amount, t, self);
      StakeSumIgnores(stakes, stakes', t, counter);
    }
  }

  /** A recorded stake can always be paid back, and paying it back keeps the books. */
  lemma RefundKeepsEscrow(balances: Balances, gifts: Balances, stakes: map<nat, Stake>, counter: nat, self: Address, author: Address, id: nat)
    requires EscrowOk(balances, gifts, stakes, counter, self) && author != self
    requires id in stakes && 1 <= id <= counter
    ensures stakes[id].amount <= BalanceOf(balances, stakes[id].token, self)
    ensures EscrowOk(Transfer(balances, stakes[id].token, self, author, stakes[id].amount).value, gifts, stakes - {id}, counter, self)
  {
    hide BalanceOf, Transfer;
    var s := stakes[id];
    StakeSumWithout(stakes, s.token, counter, id);
    var after := Transfer(balances, s.token, self, author, s.amount).value;
    forall t ensures BalanceOf(after, t, self) == BalanceOf(gifts, t, self) + StakeSum(stakes - {id}, t, counter) {
      TransferMoves(balances, s.token, self, author, s.amount, t, self);
      StakeSumWithout(stakes, t, counter, id);
    }
  }

  // ---- what a step may change --------------------------------------------------------

  predicate Terminal(status: Status) { status == Executed || status == Cancelled }

  /** Proposals are never forgotten or reassigned, terminal ones are frozen, a stake once gone is never held
      again, and the stake of a cancelled proposal is never paid out. */
  ghost predicate Evolves(before: map<nat, Proposal>, stakesBefore: map<nat, Stake>, after: map<nat, Proposal>, stakesAfter: map<nat, Stake>) {
    && (forall id :: id in before ==>
          && id in after && after[id].author == before[id].author && after[id].createdAt == before[id].createdAt
          && (Terminal(before[id].status) ==> after[id] == before[id]))
    && (forall id :: id in before && id in stakesAfter ==> id in stakesBefore && stakesAfter[id] == stakesBefore[id])
    && (forall id :: id in before && before[id].status == Cancelled && id in stakesBefore ==> id in stakesAfter)
  }

  /** So any number of steps evolves a proposal book, too. */
  lemma EvolvesComposes(p0: map<nat, Proposal>, s0: map<nat, Stake>, p1: map<nat, Proposal>, s1: map<nat, Stake>, p2: map<nat, Proposal>, s2: map<nat, Stake>)
    requires Evolves(p0, s0, p1, s1) && Evolves(p1, s1, p2, s2)
    ensures Evolves(p0, s0, p2, s2)
  {
  }

  lemma NothingEvolves(proposals: map<nat, Proposal>, stakes: map<nat, Stake>)
    ensures Evolves(proposals, stakes, proposals, stakes)
  {
  }

  /** One moment of a book. */
  datatype Snapshot = Snapshot(proposals: map<nat, Proposal>, stakes: map<nat, Stake>)

  /** So a whole run of steps evolves the book. */
  lemma {:induction false} RunsEvolve(book: seq<Snapshot>, i: nat, j: nat)
    requires i <= j < |book|
    requires forall k, l :: 0 <= k && l == k + 1 < |book| ==> Evolves(book[k].proposals, book[k].stakes, book[l].proposals, book[l].stakes)
    ensures Evolves(book[i].proposals, book[i].stakes, book[j].proposals, book[j].stakes)
    decreases j - i
  {
    if i < j {
      hide Evolves;
      RunsEvolve(book, i, j - 1);
      EvolvesComposes(book[i].proposals, book[i].stakes, book[j - 1].proposals, book[j - 1].stakes, book[j].proposals, book[j].stakes);
    } else {
      NothingEvolves(book[i].proposals, book[i].stakes);
    }
  }

  /** The stake is documented as refundable. Over any run, what is held for a cancelled proposal is exactly what
      was held: it is never paid out, and never paid in. */
  lemma CancelledStakeIsStuck(book: seq<Snapshot>, i: nat, j: nat, id: nat)
    requires i <= j < |book|
    requires forall k, l :: 0 <= k && l == k + 1 < |book| ==> Evolves(book[k].proposals, book[k].stakes, book[l].proposals, book[l].stakes)
    requires id in book[i].proposals && book[i].proposals[id].status == Cancelled
    ensures id in book[j].proposals && book[j].proposals[id] == book[i].proposals[id]
    ensures id in book[j].stakes <==> id in book[i].stakes
    ensures id in book[i].stakes ==> book[j].stakes[id] == book[i].stakes[id]
  {
    RunsEvolve(book, i, j);
  }

  // ---- the rest of the book ----------------------------------------------------------

  /** Proposals are numbered from one, and the governor is never an author. */
  ghost predicate Numbered(proposals: map<nat, Proposal>, counter: nat, self: Address) {
    && (forall id :: id in proposals <==> 1 <= id <= counter)
    && (forall id :: id in proposals ==> proposals[id].author != self)
  }

  /** No stake outlives execution. */
  ghost predicate StakesOk(stakes: map<nat, Stake>, proposals: map<nat, Proposal>) {
    forall id :: id in stakes ==> id in proposals && proposals[id].status != Executed
  }

  /** Votes as they stand. */
  function Distribution(p: Proposal, abstainVotes: map<nat, nat>, id: nat): VoteRecord {
    VoteRecord(p.forVotes, p.againstVotes, if id in abstainVotes then abstainVotes[id] else 0)
  }

  /** Exactly the cancelled proposals have an archived record, and it is their final distribution. */
  ghost predicate RecordsOk(records: map<nat, VoteRecord>, proposals: map<nat, Proposal>, abstainVotes: map<nat, nat>) {
    && (forall id :: id in records <==> id in proposals && proposals[id].status == Cancelled)
    && (forall id :: id in records && id in proposals ==> records[id] == Distribution(proposals[id], abstainVotes, id))
  }

  ghost predicate BookOk(proposals: map<nat, Proposal>, counter: nat, self: Address, stakes: map<nat, Stake>,
                         records: map<nat, VoteRecord>, abstainVotes: map<nat, nat>)
  {
    && Numbered(proposals, counter, self)
    && StakesOk(stakes, proposals)
    && RecordsOk(records, proposals, abstainVotes)
  }

  /** A new pending proposal keeps the book. */
  lemma OpeningKeepsBook(proposals: map<nat, Proposal>, counter: nat, self: Address, stakes: map<nat, Stake>,
                         records: map<nat, VoteRecord>, abstainVotes: map<nat, nat>, p: Proposal, stake: Stake)
    requires BookOk(proposals, counter, self, stakes, records, abstainVotes)
    requires p.status == Pending && p.author != self
    ensures counter + 1 !in proposals
    ensures BookOk(proposals[counter + 1 := p], counter + 1, self, stakes[counter + 1 := stake], records, abstainVotes[counter + 1 := 0])
    ensures Evolves(proposals, stakes, proposals[counter + 1 := p], stakes[counter + 1 := stake])
  {
  }

  /** So does any change to an open proposal that archives the votes on cancellation and leaves no stake
      behind on execution. */
  lemma ChangeKeepsBook(proposals: map<nat, Proposal>, counter: nat, self: Address,
                        stakes: map<nat, Stake>, stakes': map<nat, Stake>,
                        records: map<nat, VoteRecord>, records': map<nat, VoteRecord>,
                        abstainVotes: map<nat, nat>, abstainVotes': map<nat, nat>, id: nat, p: Proposal)
    requires BookOk(proposals, counter, self, stakes, records, abstainVotes)
    requires id in proposals && !Terminal(proposals[id].status)
    requires p.author == proposals[id].author && p.createdAt == proposals[id].createdAt
    requires stakes' == stakes - {id} || (stakes' == stakes && p.status != Executed)
    requires abstainVotes' - {id} == abstainVotes - {id}
    requires records' == if p.status == Cancelled then records[id := Distribution(p, abstainVotes', id)] else records
    ensures BookOk(proposals[id := p], counter, self, stakes', records', abstainVotes')
    ensures Evolves(proposals, stakes, proposals[id := p], stakes')
  {
    forall other | other != id ensures other in abstainVotes' <==> other in abstainVotes
      ensures other in abstainVotes ==> abstainVotes'[other] == abstainVotes[other]
    {
      assert other in abstainVotes <==> other in abstainVotes - {id};
      assert other in abstainVotes' <==> other in abstainVotes' - {id};
    }
  }

  lemma OpenHasNoRecord(proposals: map<nat, Proposal>, counter: nat, self: Address, stakes: map<nat, Stake>,
                        records: map<nat, VoteRecord>, abstainVotes: map<nat, nat>, id: nat)
    requires BookOk(proposals, counter, self, stakes, records, abstainVotes)
    requires id in proposals && !Terminal(proposals[id].status)
    ensures id !in records
  {
  }

  // ---- what execution asks for -------------------------------------------------------

  function Threshold(supply: nat, bps: nat): nat { supply * bps / 10_000 }

  /** Votes cast, as the quorum check counts them. */
  function Turnout(p: Proposal, abstained: nat): nat {
    SatAdd(SatAdd(p.forVotes, p.againstVotes, U64_MAX), abstained, U64_MAX)
  }

  /** Why a proposal cannot be executed, if it cannot. */
  function Blocked(isExecutor: bool, proposal: Option<Proposal>, abstained: nat, supply: nat, bps: nat, now: nat): Option<Error> {
    if !isExecutor then Some(NotAuthorized)
    else if proposal.None? then Some(ProposalNotFound)
    else
      var p := proposal.value;
      if p.status != Pending && p.status != Active then Some(ProposalNotPending)
      else if SatSub(now, p.createdAt) < MIN_EXECUTION_DELAY then Some(TimelockNotMet)
      else if SatSub(now, p.createdAt) > SatAdd(p.window, MIN_EXECUTION_DELAY, U64_MAX) then Some(ProposalExpired)
      else if bps > 0 && Turnout(p, abstained) < Threshold(supply, bps) then Some(QuorumNotMet)
      else None
  }

  /** The turnout meets the rounded-down threshold exactly when one vote more would exceed the exact share. */
  lemma QuorumRule(turnout: nat, supply: nat, bps: nat)
    ensures turnout >= Threshold(supply, bps) <==> (turnout + 1) * 10_000 > supply * bps
  {
  }

  lemma TurnoutIsSum(p: Proposal, abstained: nat)
    ensures Turnout(p, abstained) == Min(p.forVotes + p.againstVotes + abstained, U64_MAX)
  {
  }

  /** The first condition to fail, in plain terms, names the error. */
  lemma BlockedIs(isExecutor: bool, proposal: Option<Proposal>, abstained: nat, supply: nat, bps: nat, now: nat)
    requires now <= U64_MAX
    ensures Blocked(isExecutor, proposal, abstained, supply, bps, now) ==
            if !isExecutor then Some(NotAuthorized)
            else if proposal.None? then Some(ProposalNotFound)
            else
              var p := proposal.value;
              if p.status !in {Pending, Active} then Some(ProposalNotPending)
              else if now < p.createdAt + 604_800 then Some(TimelockNotMet)
              else if now > p.createdAt + 604_800 + p.window then Some(ProposalExpired)
              else if bps > 0 && (Min(p.forVotes + p.againstVotes + abstained, U64_MAX) + 1) * 10_000 <= supply * bps then Some(QuorumNotMet)
              else None
  {
    hide Threshold, Turnout, Min;
    if proposal.Some? {
      TurnoutIsSum(proposal.value, abstained);
      QuorumRule(Turnout(proposal.value, abstained), supply, bps);
      EndOfWindow(proposal.value.window);
    }
  }

  lemma EndOfWindow(window: nat)
    ensures SatAdd(window, MIN_EXECUTION_DELAY, U64_MAX) == if window + 604_800 <= U64_MAX then window + 604_800 else U64_MAX
  {
  }

  /** Exactly when an executor succeeds: an open proposal, between a week after its creation and the end of
      its window after that, on a large enough turnout. */
  lemma ExecutableIff(p: Proposal, abstained: nat, supply: nat, bps: nat, now: nat)
    requires p.createdAt <= now <= U64_MAX
    ensures Blocked(true, Some(p), abstained, supply, bps, now).None? <==>
            && p.status in {Pending, Active}
            && p.createdAt + 604_800 <= now <= p.createdAt + 604_800 + p.window
            && (bps == 0 || (Min(p.forVotes + p.againstVotes + abstained, U64_MAX) + 1) * 10_000 > supply * bps)
  {
    hide Blocked, Min;
    BlockedIs(true, Some(p), abstained, supply, bps, now);
  }

  /** Execution is documented as being for proposals that passed, but how the votes divide is never looked
      at: votes may move freely between the two sides. */
  lemma DivisionIsIgnored(p: Proposal, forVotes: nat, againstVotes: nat, isExecutor: bool, abstained: nat, supply: nat, bps: nat, now: nat)
    requires forVotes + againstVotes == p.forVotes + p.againstVotes
    ensures Blocked(isExecutor, Some(p.(forVotes := forVotes, againstVotes := againstVotes)), abstained, supply, bps, now) ==
            Blocked(isExecutor, Some(p), abstained, supply, bps, now)
  {
    hide Threshold;
  }

  /** So a proposal every voter was against can be executed. */
  lemma RejectedProposalExecutes(author: Address)
    ensures Blocked(true, Some(Proposal(author, 0, 1, Active, 0, 1000)), 0, 1000, 10_000, MIN_EXECUTION_DELAY).None?
  {
  }

  /** The documented quorum counts votes for and against only. Exactly when a proposal executes although
      these miss the quorum: everything else is in order and abstentions make up the shortfall. */
  lemma AbstentionsCarryIff(p: Proposal, abstained: nat, supply: nat, bps: nat, now: nat)
    requires p.createdAt <= now <= U64_MAX
    ensures (Blocked(true, Some(p), abstained, supply, bps, now).None? && Blocked(true, Some(p), 0, supply, bps, now) == Some(QuorumNotMet)) <==>
            && p.status in {Pending, Active}
            && p.createdAt + 604_800 <= now <= p.createdAt + 604_800 + p.window
            && (Min(p.forVotes + p.againstVotes, U64_MAX) + 1) * 10_000 <= supply * bps
            && supply * bps < (Min(p.forVotes + p.againstVotes + abstained, U64_MAX) + 1) * 10_000
  {
    hide Blocked, Min;
    BlockedIs(true, Some(p), abstained, supply, bps, now);
    BlockedIs(true, Some(p), 0, supply, bps, now);
    assert p.forVotes + p.againstVotes + 0 == p.forVotes + p.againstVotes;
  }

  /** Nobody voted for or against, everybody abstained, and the whole supply was asked for. */
  lemma AbstentionsAloneExecute(author: Address)
    ensures var p := Proposal(author, 0, 1, Active, 0, 0);
            && Blocked(true, Some(p), 0, 1000, 10_000, MIN_EXECUTION_DELAY) == Some(QuorumNotMet)
            && Blocked(true, Some(p), 1000, 1000, 10_000, MIN_EXECUTION_DELAY).None?
  {
  }

  class ProposalBook {
    const self: Address
    var proposals: map<nat, Proposal>
    var counter: nat
    var byStatus: map<Status, seq<nat>>
    var stakes: map<nat, Stake>
    var stakeToken: Option<Address>
    var minStake: nat
    var minQuorumBps: nat
    var abstainVotes: map<nat, nat>
    var supplyAt: map<nat, nat>
    var records: map<nat, VoteRecord>
    var balances: Balances
    ghost var gifts: Balances

    ghost predicate Valid()
      reads this
    {
      && BookOk(proposals, counter, self, stakes, records, abstainVotes)
      && IndexOk(byStatus, proposals)
      && EscrowOk(balances, gifts, stakes, counter, self)
      && minQuorumBps <= 10_000
    }

    constructor (self: Address, balances: Balances)
      ensures Valid() && this.self == self && counter == 0 && proposals == map[]
    {
      this.self, this.balances, gifts := self, balances, balances;
      proposals, counter, byStatus, stakes := map[], 0, map[], map[];
      stakeToken, minStake, minQuorumBps, abstainVotes, supplyAt, records := None, 0, 0, map[], map[], map[];
    }

    /** Other accounts move tokens among themselves or give some to the governor. */
    method OutsideTransfer(token: Address, from: Address, to: Address, amount: nat)
      requires Valid() && from != self && amount <= BalanceOf(balances, token, from)
      modifies `balances, `gifts
      ensures Valid()
    {
      hide EscrowOk, IndexOk, Transfer, BalanceOf;
      GiftKeepsEscrow(balances, gifts, stakes, counter, self, token, from, to, amount);
      balances := Transfer(balances, token, from, to, amount).value;
      if to == self {
        gifts := gifts[(token, self) := BalanceOf(gifts, token, self) + amount];
      }
    }

    method SetProposalStakeConfig(isAdmin: bool, paused: bool, token: Address, amount: int) returns (failure: Option<Error>)
      requires Valid()
      modifies `stakeToken, `minStake
      ensures Valid()
      ensures failure == if paused then Some(ContractPaused) else if !isAdmin then Some(NotAuthorized)
                         else if amount <= 0 || token == ZERO_ADDRESS then Some(InvalidParam) else None
      ensures failure.None? ==> stakeToken == Some(token) && minStake == amount
      ensures failure.Some? ==> unchanged(this)
    {
      if paused {
        return Some(ContractPaused);
      }
      if !isAdmin {
        return Some(NotAuthorized);
      }
      if amount <= 0 || token == ZERO_ADDRESS {
        return Some(InvalidParam);
      }
      stakeToken, minStake := Some(token), amount;
      failure := None;
    }

    method SetMinQuorumBps(isAdmin: bool, paused: bool, bps: nat) returns (failure: Option<Error>)
      requires Valid()
      modifies `minQuorumBps
      ensures Valid()
      ensures failure == if bps > 10_000 then Some(InvalidParam) else if paused then Some(ContractPaused)
                         else if !isAdmin then Some(NotAuthorized) else None
      ensures minQuorumBps == if failure.None? then bps else old(minQuorumBps)
    {
      if bps > 10_000 {
        return Some(InvalidParam);
      }
      if paused {
        return Some(ContractPaused);
      }
      if !isAdmin {
        return Some(NotAuthorized);
      }
      minQuorumBps := bps;
      failure := None;
    }

    method AddToStatusIndex(id: nat, status: Status)
      modifies `byStatus
      ensures byStatus == if id in Listed(old(byStatus), status) then old(byStatus)
                          else old(byStatus)[status := Listed(old(byStatus), status) + [id]]
    {
      var ids := Listed(byStatus, status);
      var i := 0;
      while i < |ids|
        invariant 0 <= i <= |ids| && id !in ids[..i]
      {
        if ids[i] == id {
          return;
        }
        i := i + 1;
      }
      byStatus := byStatus[status := ids + [id]];
    }

    method RemoveFromStatusIndex(id: nat, status: Status)
      modifies `byStatus
      ensures byStatus == old(byStatus)[status := Without(Listed(old(byStatus), status), id)]
    {
      var ids := Listed(byStatus, status);
      var updated := [];
      for i := 0 to |ids|
        invariant updated == Without(ids[..i], id)
      {
        assert ids[..i + 1][..i] == ids[..i];
        if ids[i] != id {
          updated := updated + [ids[i]];
        }
      }
      assert ids[..|ids|] == ids;
      byStatus := byStatus[status := updated];
    }

    /** Moves a proposal to another status, in its record and in the index. */
    method SetProposalStatus(id: nat, status: Status) returns (found: bool)
      requires IndexOk(byStatus, proposals)
      modifies `proposals, `byStatus
      ensures IndexOk(byStatus, proposals)
      ensures found <==> id in old(proposals)
      ensures proposals == if found then old(proposals)[id := old(proposals)[id].(status := status)] else old(proposals)
      ensures byStatus == if found then Transferred(old(byStatus), id, old(proposals)[id].status, status) else old(byStatus)
    {
      hide IndexOk, Without;
      if id !in proposals {
        return false;
      }
      var p := proposals[id];
      if p.status != status {
        MoveKeepsIndex(byStatus, proposals, id, p.(status := status));
        ListedOnce(byStatus, proposals, id, status);
        RemoveFromStatusIndex(id, p.status);
        proposals := proposals[id := p.(status := status)];
        AddToStatusIndex(id, status);
      } else {
        assert proposals[id := p.(status := status)] == proposals;
      }
      found := true;
    }

    /** Enters a paid-for proposal under the next id. */
    method Open(proposal: Proposal, stake: Stake, paid: Balances, supply: nat)
      requires Valid() && proposal.author != self && proposal.status == Pending
      requires Some(paid) == Transfer(balances, stake.token, proposal.author, self, stake.amount)
      modifies this
      ensures Valid() && Evolves(old(proposals), old(stakes), proposals, stakes)
      ensures counter == old(counter) + 1 && proposals == old(proposals)[counter := proposal] && stakes == old(stakes)[counter := stake]
      ensures balances == paid && supplyAt == old(supplyAt)[counter := supply] && records == old(records)
      ensures byStatus == old(byStatus)[Pending := Listed(old(byStatus), Pending) + [counter]]
    {
      hide BookOk, Evolves, IndexOk, EscrowOk, Transfer, BalanceOf, Listed;
      var id := counter + 1;
      DepositKeepsEscrow(balances, gifts, stakes, counter, self, proposal.author, stake);
      OpeningKeepsBook(proposals, counter, self, stakes, records, abstainVotes, proposal, stake);
      NewKeepsIndex(byStatus, proposals, id, proposal);
      balances := paid;
      proposals := proposals[id := proposal];
      abstainVotes := abstainVotes[id := 0];
      counter := id;
      stakes := stakes[id := stake];
      AddToStatusIndex(id, Pending);
      supplyAt := supplyAt[id := supply];
    }

    /** Opens a proposal: its stake moves into escrow and it is listed as pending. */
    method Propose(caller: Address, isAdmin: bool, window: nat, now: nat, supply: nat) returns (r: Result<nat, Error>)
      requires Valid()
      modifies this
      ensures Valid() && Evolves(old(proposals), old(stakes), proposals, stakes)
      ensures r.Ok? <==> caller != self && isAdmin && window > 0 && old(stakeToken).Some? && old(minStake) > 0
                         && old(minStake) <= BalanceOf(old(balances), old(stakeToken).value, caller)
      ensures r.Err? ==> unchanged(this)
      ensures r.Err? ==>
                r.error == if caller == self then HostTrap else if !isAdmin then NotAuthorized else if window == 0 then InvalidParam
                              else if old(stakeToken).None? || old(minStake) == 0 then ProposalStakeNotConfigured else HostTrap
      ensures r.Ok? ==>
                && r.value == old(counter) + 1 == counter
                && proposals == old(proposals)[r.value := Proposal(caller, now, window, Pending, 0, 0)]
                && stakes == old(stakes)[r.value := Stake(old(minStake), old(stakeToken).value)]
                && Some(balances) == Transfer(old(balances), old(stakeToken).value, caller, self, old(minStake))
                && supplyAt == old(supplyAt)[r.value := supply] && records == old(records)
                && byStatus == old(byStatus)[Pending := Listed(old(byStatus), Pending) + [r.value]]
    {
      hide BookOk, Evolves, IndexOk, EscrowOk, Transfer, BalanceOf, Listed;
      NothingEvolves(proposals, stakes);
      if caller == self {
        return Err(HostTrap);  // nothing can authorize the contract to call itself
      }
      if !isAdmin {
        return Err(NotAuthorized);
      }
      if window == 0 {
        return Err(InvalidParam);
      }
      if stakeToken.None? || minStake == 0 {
        return Err(ProposalStakeNotConfigured);
      }
      var stake := Stake(minStake, stakeToken.value);
      var paid := Transfer(balances, stake.token, caller, self, stake.amount);
      if paid.None? {
        return Err(HostTrap);
      }
      r := Ok(counter + 1);
      Open(Proposal(caller, now, window, Pending, 0, 0), stake, paid.value, supply);
    }

    /** The stake of `id`, if still held, has gone to `author`, and no other balance moved. */
    ghost predicate Repaid(before: Balances, held: map<nat, Stake>, id: nat, author: Address, after: Balances) {
      if id in held then Some(after) == Transfer(before, held[id].token, self, author, held[id].amount) else after == before
    }

    /** That is: the author of a stake still held gains exactly the stake, the governor loses it, and everybody
        else has what they had. */
    lemma RepaidPays(before: Balances, held: map<nat, Stake>, id: nat, author: Address, after: Balances, t: Address, h: Address)
      requires Repaid(before, held, id, author, after) && author != self
      ensures BalanceOf(after, t, h) ==
              BalanceOf(before, t, h)
              + (if id in held && t == held[id].token && h == author then held[id].amount else 0)
              - (if id in held && t == held[id].token && h == self then held[id].amount else 0)
    {
      if id in held {
        TransferMoves(before, held[id].token, self, author, held[id].amount, t, h);
      }
    }

    /** Pays a stake back to the author if it is still held. Only open proposals get here. */
    method RefundProposalStake(id: nat)
      requires Valid() && id in proposals && !Terminal(proposals[id].status)
      modifies `balances, `stakes
      ensures Valid()
      ensures stakes == old(stakes) - {id}
      ensures Repaid(old(balances), old(stakes), id, proposals[id].author, balances)
    {
      hide IndexOk, EscrowOk, Transfer, BalanceOf;
      if id !in stakes {
        assert stakes - {id} == stakes;
        return;
      }
      RefundKeepsEscrow(balances, gifts, stakes, counter, self, proposals[id].author, id);
      balances := Transfer(balances, stakes[id].token, self, proposals[id].author, stakes[id].amount).value;
      stakes := stakes - {id};
    }

    /** Executes a proposal: the stake goes back to its author, and the proposal is executed for good. */
    method ExecuteProposal(isExecutor: bool, id: nat, now: nat, currentSupply: nat) returns (failure: Option<Error>)
      requires Valid()
      modifies this
      ensures Valid() && Evolves(old(proposals), old(stakes), proposals, stakes)
      ensures failure == Blocked(isExecutor, if id in old(proposals) then Some(old(proposals)[id]) else None,
                                 if id in old(abstainVotes) then old(abstainVotes)[id] else 0,
                                 if id in old(supplyAt) then old(supplyAt)[id] else currentSupply, old(minQuorumBps), now)
      ensures failure.Some? ==> unchanged(this)
      ensures failure.None? ==>
                && proposals == old(proposals)[id := old(proposals)[id].(status := Executed)]
                && stakes == old(stakes) - {id} && records == old(records)
                && Repaid(old(balances), old(stakes), id, proposals[id].author, balances)
                && byStatus == Moved(old(byStatus), id, old(proposals)[id].status, Executed)
    {
      hide BookOk, Evolves, IndexOk, EscrowOk, Threshold, Transfer, BalanceOf, Repaid, Moved;
      NothingEvolves(proposals, stakes);
      if !isExecutor {
        return Some(NotAuthorized);
      }
      if id !in proposals {
        return Some(ProposalNotFound);
      }
      var p := proposals[id];
      if p.status != Pending && p.status != Active {
        return Some(ProposalNotPending);
      }
      var elapsed := SatSub(now, p.createdAt);
      if elapsed < MIN_EXECUTION_DELAY {
        return Some(TimelockNotMet);
      }
      if elapsed > SatAdd(p.window, MIN_EXECUTION_DELAY, U64_MAX) {
        return Some(ProposalExpired);
      }
      if minQuorumBps > 0 {
        var supply := if id in supplyAt then supplyAt[id] else currentSupply;
        var abstained := if id in abstainVotes then abstainVotes[id] else 0;
        if Turnout(p, abstained) < Threshold(supply, minQuorumBps) {
          return Some(QuorumNotMet);
        }
      }
      failure := None;
      RefundProposalStake(id);
      var _ := SetProposalStatus(id, Executed);
      ChangeKeepsBook(old(proposals), counter, self, old(stakes), stakes, records, records, abstainVotes, abstainVotes,
                      id, proposals[id]);
    }

    /** Archives the vote distribution once, then marks the proposal cancelled. The stake stays in escrow. */
    method Close(id: nat)
      requires Valid() && id in proposals && !Terminal(proposals[id].status)
      modifies `records, `proposals, `byStatus
      ensures Valid() && Evolves(old(proposals), old(stakes), proposals, stakes)
      ensures proposals == old(proposals)[id := old(proposals)[id].(status := Cancelled)]
      ensures records == old(records)[id := Distribution(old(proposals)[id], old(abstainVotes), id)]
      ensures byStatus == Moved(old(byStatus), id, old(proposals)[id].status, Cancelled)
    {
      hide BookOk, Evolves, IndexOk, EscrowOk, Moved;
      OpenHasNoRecord(proposals, counter, self, stakes, records, abstainVotes, id);
      ghost var p := proposals[id].(status := Cancelled);
      assert Distribution(p, abstainVotes, id) == Distribution(proposals[id], abstainVotes, id);
      hide Distribution;
      if id !in records {
        records := records[id := Distribution(proposals[id], abstainVotes, id)];
      }
      var _ := SetProposalStatus(id, Cancelled);
      ChangeKeepsBook(old(proposals), counter, self, stakes, stakes, old(records), records, abstainVotes, abstainVotes, id, p);
    }

    method CancelProposal(caller: Address, id: nat) returns (failure: Option<Error>)
      requires Valid()
      modifies `records, `proposals, `byStatus
      ensures Valid() && Evolves(old(proposals), old(stakes), proposals, stakes)
      ensures failure == if id !in old(proposals) then Some(ProposalNotFound)
                         else if caller != old(proposals)[id].author then Some(NotAuthorized)
                         else if old(proposals)[id].status != Pending && old(proposals)[id].status != Active then Some(ProposalNotPending)
                         else None
      ensures failure.Some? ==> unchanged(this)
      ensures failure.None? ==>
                && proposals == old(proposals)[id := old(proposals)[id].(status := Cancelled)]
                && records == old(records)[id := Distribution(old(proposals)[id], old(abstainVotes), id)]
                && records[id].forVotes == old(proposals)[id].forVotes && records[id].againstVotes == old(proposals)[id].againstVotes
                && records[id].abstainVotes == (if id in old(abstainVotes) then old(abstainVotes)[id] else 0)
                && byStatus == Moved(old(byStatus), id, old(proposals)[id].status, Cancelled)
    {
      hide BookOk, Evolves, IndexOk, EscrowOk, Moved;
      NothingEvolves(proposals, stakes);
      if id !in proposals {
        return Some(ProposalNotFound);
      }
      if caller != proposals[id].author {
        return Some(NotAuthorized);
      }
      if proposals[id].status != Pending && proposals[id].status != Active {
        return Some(ProposalNotPending);
      }
      Close(id);
      failure := None;
    }

    method CancelProposalByAdmin(isAdmin: bool, id: nat) returns (failure: Option<Error>)
      requires Valid()
      modifies `records, `proposals, `byStatus
      ensures Valid() && Evolves(old(proposals), old(stakes), proposals, stakes)
      ensures failure == if !isAdmin then Some(NotAuthorized)
                         else if id !in old(proposals) then Some(ProposalNotFound)
                         else if old(proposals)[id].status != Pending && old(proposals)[id].status != Active then Some(ProposalNotPending)
                         else None
      ensures failure.Some? ==> unchanged(this)
      ensures failure.None? ==>
                && proposals == old(proposals)[id := old(proposals)[id].(status := Cancelled)]
                && records == old(records)[id := Distribution(old(proposals)[id], old(abstainVotes), id)]
                && records[id].forVotes == old(proposals)[id].forVotes && records[id].againstVotes == old(proposals)[id].againstVotes
                && records[id].abstainVotes == (if id in old(abstainVotes) then old(abstainVotes)[id] else 0)
                && byStatus == Moved(old(byStatus), id, old(proposals)[id].status, Cancelled)
    {
      hide BookOk, Evolves, IndexOk, EscrowOk, Moved;
      NothingEvolves(proposals, stakes);
      if !isAdmin {
        return Some(NotAuthorized);
      }
      if id !in proposals {
        return Some(ProposalNotFound);
      }
      if proposals[id].status != Pending && proposals[id].status != Active {
        return Some(ProposalNotPending);
      }
      Close(id);
      failure := None;
    }

    /** A vote as far as this book is concerned: on an open proposal the tallies change in any way, the
        proposal becomes active, and the stake may be paid back early. */
    method BallotStep(id: nat, forVotes: nat, againstVotes: nat, abstain: nat, refund: bool)
      requires Valid() && id in proposals && (proposals[id].status == Pending || proposals[id].status == Active)
      modifies this
      ensures Valid() && Evolves(old(proposals), old(stakes), proposals, stakes)
      ensures proposals == old(proposals)[id := old(proposals)[id].(status := Active, forVotes := forVotes, againstVotes := againstVotes)]
      ensures stakes == if refund then old(stakes) - {id} else old(stakes)
      ensures if refund then Repaid(old(balances), old(stakes), id, proposals[id].author, balances) else balances == old(balances)
      ensures records == old(records) && counter == old(counter)
      ensures abstainVotes == old(abstainVotes)[id := abstain] && supplyAt == old(supplyAt)
      ensures byStatus == Transferred(old(byStatus), id, old(proposals)[id].status, Active)
    {
      hide BookOk, Evolves, IndexOk, EscrowOk, Transfer, BalanceOf, Repaid, Transferred;
      var p := proposals[id].(forVotes := forVotes, againstVotes := againstVotes);
      SameStatusKeepsIndex(byStatus, proposals, id, p);
      proposals := proposals[id := p];
      abstainVotes := abstainVotes[id := abstain];
      var _ := SetProposalStatus(id, Active);
      assert proposals == old(proposals)[id := proposals[id]];
      assert abstainVotes - {id} == old(abstainVotes) - {id};
      ChangeKeepsBook(old(proposals), counter, self, stakes, stakes, records, records, old(abstainVotes), abstainVotes, id, proposals[id]);
      if refund {
        RefundProposalStake(id);
        ChangeKeepsBook(old(proposals), counter, self, old(stakes), stakes, records, records, old(abstainVotes), abstainVotes, id, proposals[id]);
      }
    }

    /** A proposal entering the list of another status leaves that list in creation order exactly when every
        proposal already in that status is older; the contracts above say which list is entered when. */
    lemma EntryKeepsOrderIff(id: nat, to: Status)
      requires Valid() && id in proposals && to != proposals[id].status && InCreationOrder(Listed(byStatus, to))
      ensures InCreationOrder(Listed(Moved(byStatus, id, proposals[id].status, to), to)) <==>
              forall other :: other in proposals && proposals[other].status == to ==> other < id
    {
      hide BookOk, EscrowOk, Moved, Without;
      MoveKeepsOrderIff(byStatus, id, proposals[id].status, to);
      var ids := Listed(byStatus, to);
      assert Lists(ids, proposals, to);
      if ids != [] {
        assert ids[|ids| - 1] in ids;
        forall other | other in ids && ids[|ids| - 1] < id ensures other < id {
          var i :| 0 <= i < |ids| && ids[i] == other;
        }
      }
    }

    /** Two pending proposals voted on newest first are listed newest first. */
    method NewerVotedFirst(older: nat, newer: nat)
      requires Valid() && older < newer && older in proposals && newer in proposals
      requires proposals[older].status == proposals[newer].status == Pending && Listed(byStatus, Active) == []
      modifies this
      ensures Valid() && Listed(byStatus, Active) == [newer, older]
    {
      hide BookOk, IndexOk, EscrowOk, Evolves, Repaid, Without;
      BallotStep(newer, 1, 0, 0, false);
      BallotStep(older, 1, 0, 0, false);
    }

    /** Proposing and cancelling costs the author the whole stake: it stays recorded, and in escrow. */
    method ProposedThenCancelled(author: Address, window: nat, now: nat, supply: nat) returns (id: nat)
      requires Valid() && author != self && window > 0 && stakeToken.Some? && minStake > 0
      requires minStake <= BalanceOf(balances, stakeToken.value, author)
      modifies this
      ensures Valid() && id in proposals && proposals[id].status == Cancelled && proposals[id].author == author
      ensures id in stakes && stakes[id] == Stake(old(minStake), old(stakeToken).value)
      ensures BalanceOf(balances, old(stakeToken).value, author) == BalanceOf(old(balances), old(stakeToken).value, author) - old(minStake)
      ensures BalanceOf(balances, old(stakeToken).value, self) == BalanceOf(old(balances), old(stakeToken).value, self) + old(minStake)
    {
      hide BookOk, Evolves, IndexOk, EscrowOk, Transfer, BalanceOf, Moved, Listed, Distribution;
      TransferMoves(balances, stakeToken.value, author, self, minStake, stakeToken.value, author);
      TransferMoves(balances, stakeToken.value, author, self, minStake, stakeToken.value, self);
      var proposed := Propose(author, true, window, now, supply);
      id := proposed.value;
      var failure := CancelProposal(author, id);
    }

    /** What the book shows in every reachable state. */
    lemma BookIsClosed(id: nat, status: Status, token: Address)
      requires Valid() && 1 <= id <= counter
      ensures id in proposals
      ensures id in Listed(byStatus, status) <==> status == proposals[id].status
      ensures NoDuplicates(Listed(byStatus, status))
      ensures proposals[id].status == Executed ==> id !in stakes
      ensures BalanceOf(balances, token, self) - BalanceOf(gifts, token, self) == StakeSum(stakes, token, counter)
    {
      ListedOnce(byStatus, proposals, id, status);
    }
  }
}
