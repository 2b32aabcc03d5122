/** The factory's stream registry: request validation, single and batch creation
    (contracts/factory/src/lib.rs, governance.rs, deploy.rs). */
module Registry {
  import opened Base
  import opened StreamIndex
  import opened Tokens

  const MIN_STREAM_DURATION: nat := 60
  const MAX_STREAM_DURATION: nat := 3_155_760_000
  const MAX_DESCRIPTION_LEN: nat := 128
  const MAX_BATCH_SIZE: nat := 10

  datatype Error =
    | NotInitialized | AlreadyInitialized | InvalidWasmHash | InvalidGovernor
    | InvalidRecipient | InvalidToken | InvalidDuration | DurationTooShort | DurationExceedsMax
    | InvalidDeposit | InvalidRate | InsufficientDeposit | BackdatedStream | ArithmeticOverflow
    | RateExceedsMax | StartTimeTooFarInFuture | DescriptionTooLong | ContractPaused | GovernorNotResponding
    | EmptyBatch | BatchTooLarge | CreateLocked | DepositTransferFailed | SaltAlreadyUsed
    | HostTrap  // the host aborts the call: uncovered transfer or overflow check

  datatype Request = Request(sender: Address, recipient: Address, token: Address, deposit: int, rate: int,
                             start: nat, end: nat)

  datatype GovernorConfig = GovernorConfig(feeBps: nat, feeRecipient: Address, minDuration: nat, maxDuration: nat, maxRate: int,
                                           forceCancelPauseSecs: nat)

  /** Deployment salt of a stream id, taken to be collision-free like the hash it stands for. */
  function ComputeSalt(id: nat): nat { id }

  datatype Aggregate = Aggregate(totalSupply: nat, activeStreams: nat)

  // ---- validation --------------------------------------------------------------------

  /** What a request must satisfy, whatever order the checks run in. */
  predicate Acceptable(req: Request, now: nat) {
    && req.recipient != ZERO_ADDRESS && req.recipient != req.sender && req.token != ZERO_ADDRESS
    && 0 < req.rate <= req.deposit
    && now <= req.start
    && (req.end > 0 ==>
          && req.start + MIN_STREAM_DURATION <= req.end
          && req.rate * (req.end - req.start) <= Min(req.deposit, I128_MAX))
  }

  /** What an error of validation says of the request. */
  predicate Faulty(e: Error, req: Request, now: nat) {
    match e
    case InvalidRecipient => req.recipient in {ZERO_ADDRESS, req.sender}
    case InvalidToken => req.token == ZERO_ADDRESS
    case InvalidDuration => 0 < req.end <= req.start
    case DurationTooShort => req.start < req.end < req.start + 60
    case InvalidDeposit => req.deposit <= 0
    case InvalidRate => req.rate <= 0
    case InsufficientDeposit => 0 < req.deposit < req.rate || (0 < req.end && 0 < req.deposit < req.rate * (req.end - req.start))
    case BackdatedStream => req.start < now
    case ArithmeticOverflow => 0 < req.end && I128_MAX < req.rate * (req.end - req.start)
    case _ => false
  }

  function ValidateStreamRequest(req: Request, now: nat): (r: Result<nat, Error>)
    ensures r.Ok? <==> Acceptable(req, now)
    ensures r.Ok? ==> r.value == now
    ensures r.Err? ==> Faulty(r.error, req, now)
  {
    if req.recipient == ZERO_ADDRESS || req.recipient == req.sender then Err(InvalidRecipient)
    else if req.token == ZERO_ADDRESS then Err(InvalidToken)
    else if req.end > 0 && req.end <= req.start then Err(InvalidDuration)
    else if req.end > 0 && req.end - req.start < MIN_STREAM_DURATION then Err(DurationTooShort)
    else if req.deposit <= 0 then Err(InvalidDeposit)
    else if req.rate <= 0 then Err(InvalidRate)
    else if req.deposit < req.rate then Err(InsufficientDeposit)
    else if req.start < now then Err(BackdatedStream)
    else if req.end > 0 && req.rate * (req.end - req.start) > I128_MAX then Err(ArithmeticOverflow)
    else if req.end > 0 && req.deposit < req.rate * (req.end - req.start) then Err(InsufficientDeposit)
    else Ok(now)
  }

  /** A deployed stream refuses to initialize for longer than a century, or with a force-cancel threshold of
      zero, whatever the governor allows. */
  predicate InitializeTraps(config: GovernorConfig, req: Request) {
    config.forceCancelPauseSecs == 0 || (req.end > 0 && req.end - req.start > MAX_STREAM_DURATION)
  }

  /** The governor's bounds as a property of the request. */
  predicate WithinBounds(config: GovernorConfig, rate: int, start: nat, end: nat, now: nat) {
    && rate <= config.maxRate
    && start <= now + config.maxDuration
    && (end > 0 ==> start + config.minDuration <= end <= start + config.maxDuration)
  }

  function EnforceBounds(config: GovernorConfig, rate: int, start: nat, end: nat, now: nat): (r: Option<Error>)
    ensures r.None? <==> WithinBounds(config, rate, start, end, now)
    ensures match r
            case None => true
            case Some(RateExceedsMax) => rate > config.maxRate
            case Some(StartTimeTooFarInFuture) => start > now + config.maxDuration
            case Some(ArithmeticOverflow) => 0 < end < start
            case Some(DurationTooShort) => start <= end < start + config.minDuration
            case Some(DurationExceedsMax) => end > start + config.maxDuration
            case _ => false
  {
    if rate > config.maxRate then Some(RateExceedsMax)
    else if SatSub(start, now) > config.maxDuration then Some(StartTimeTooFarInFuture)
    else if end > 0 && end < start then Some(ArithmeticOverflow)
    else if end > 0 && end - start < config.minDuration then Some(DurationTooShort)
    else if end > 0 && end - start > config.maxDuration then Some(DurationExceedsMax)
    else None
  }

  /** Protocol surcharge on a positive deposit, rounded down. */
  function Fee(deposit: nat, feeBps: nat): nat { deposit * feeBps / 10_000 }

  /** `fee` is what `feeBps` ten-thousandths of the deposit come to, less a fraction of a unit. */
  ghost predicate Charged(fee: nat, deposit: int, feeBps: nat) {
    fee * 10_000 <= deposit * feeBps < (fee + 1) * 10_000
  }

  lemma FeeRule(deposit: nat, feeBps: nat, fee: nat)
    ensures Charged(fee, deposit, feeBps) <==> fee == Fee(deposit, feeBps)
  {
    QuotientFloor(deposit * feeBps, 10_000);
  }

  predicate FeeFits(deposit: nat, feeBps: nat) {
    deposit * feeBps <= I128_MAX && deposit + Fee(deposit, feeBps) <= I128_MAX
  }

  /** The governor's bounds and the fee, computed with 128-bit overflow checks. */
  function Terms(config: GovernorConfig, now: nat, req: Request): (r: Result<nat, Error>)
    requires req.deposit >= 0
    ensures r.Ok? <==> WithinBounds(config, req.rate, req.start, req.end, now) && FeeFits(req.deposit, config.feeBps)
    ensures r.Ok? ==> Charged(r.value, req.deposit, config.feeBps) && r.value == Fee(req.deposit, config.feeBps)
    ensures r.Err? ==> r.error == EnforceBounds(config, req.rate, req.start, req.end, now).GetOr(ArithmeticOverflow)
  {
    var refusal := EnforceBounds(config, req.rate, req.start, req.end, now);
    FeeRule(req.deposit, config.feeBps, Fee(req.deposit, config.feeBps));
    if refusal.Some? then Err(refusal.value)
    else if req.deposit * config.feeBps > I128_MAX then Err(ArithmeticOverflow)
    else if req.deposit + Fee(req.deposit, config.feeBps) > I128_MAX then Err(ArithmeticOverflow)
    else Ok(Fee(req.deposit, config.feeBps))
  }

  function Consecutive(start: nat, k: nat): seq<nat> { seq(k, i requires 0 <= i => start + i) }

  function SendersOf(requests: seq<Request>): seq<Address> {
    seq(|requests|, i requires 0 <= i < |requests| => requests[i].sender)
  }

  function RecipientsOf(requests: seq<Request>): seq<Address> {
    seq(|requests|, i requires 0 <= i < |requests| => requests[i].recipient)
  }

  // ---- the ids a party appears in ----------------------------------------------------

  /** Positions of `a` in `parties`, in increasing order. */
  function IdsOf(parties: seq<Address>, a: Address): seq<nat> {
    if parties == [] then []
    else
      var n := |parties| - 1;
      IdsOf(parties[..n], a) + if parties[n] == a then [n] else []
  }

  lemma {:induction false} IdsOfIsPositions(parties: seq<Address>, a: Address)
    ensures forall i :: i in IdsOf(parties, a) <==> 0 <= i < |parties| && parties[i] == a
    ensures forall j, k :: 0 <= j < k < |IdsOf(parties, a)| ==> IdsOf(parties, a)[j] < IdsOf(parties, a)[k]
  {
    if parties != [] {
      var n := |parties| - 1;
      IdsOfIsPositions(parties[..n], a);
      assert forall j :: 0 <= j < |IdsOf(parties[..n], a)| ==> IdsOf(parties[..n], a)[j] in IdsOf(parties[..n], a);
    }
  }

  lemma IdsOfExtends(parties: seq<Address>, b: Address, a: Address)
    ensures IdsOf(parties + [b], a) == IdsOf(parties, a) + if b == a then [|parties|] else []
  {
    assert (parties + [b])[..|parties|] == parties;
  }

  lemma {:induction false} IdsOfSame(parties: seq<Address>, a: Address, k: nat)
    ensures IdsOf(parties + seq(k, i => a), a) == IdsOf(parties, a) + Consecutive(|parties|, k)
  {
    hide IdsOf;
    if k == 0 {
      assert parties + seq(k, i => a) == parties;
    } else {
      var shorter := seq(k - 1, i => a);
      IdsOfSame(parties, a, k - 1);
      assert seq(k, i => a) == shorter + [a];
      assert parties + seq(k, i => a) == parties + shorter + [a];
      IdsOfExtends(parties + shorter, a, a);
      assert Consecutive(|parties|, k) == Consecutive(|parties|, k - 1) + [|parties| + k - 1];
    }
  }

  /** The three transfers of one creation. The first must leave a trace in the factory's balance. */
  function Settle(b: Balances, factory: Address, req: Request, fee: nat, feeRecipient: Address, stream: Address): Option<Balances>
    requires req.deposit >= 0
  {
    var pulled := Transfer(b, req.token, req.sender, factory, req.deposit + fee);
    if pulled.None? || req.sender == factory then None
    else
      var charged := if fee > 0 then Transfer(pulled.value, req.token, factory, feeRecipient, fee) else pulled;
      if charged.None? then None else Transfer(charged.value, req.token, factory, stream, req.deposit)
  }

  /** What one creation changes in the balance of holder `h` of token `t`. */
  function Gain(req: Request, fee: nat, feeRecipient: Address, stream: Address, t: Address, h: Address): int {
    if t != req.token then 0
    else (if h == feeRecipient then fee else 0) + (if h == stream then req.deposit else 0)
         - (if h == req.sender then req.deposit + fee else 0)
  }

  lemma SettlePaysOne(b: Balances, factory: Address, req: Request, fee: nat, feeRecipient: Address, stream: Address, t: Address, h: Address)
    requires req.deposit > 0 && stream != factory
    ensures var after := Settle(b, factory, req, fee, feeRecipient, stream);
            after.Some? ==> BalanceOf(after.value, t, h) == BalanceOf(b, t, h) + Gain(req, fee, feeRecipient, stream, t, h)
  {
    hide Transfer, BalanceOf;
    var after := Settle(b, factory, req, fee, feeRecipient, stream);
    if after.Some? {
      TransferMoves(b, req.token, req.sender, factory, req.deposit + fee, t, h);
      var pulled := Transfer(b, req.token, req.sender, factory, req.deposit + fee).value;
      if fee > 0 {
        TransferMoves(pulled, req.token, factory, feeRecipient, fee, t, h);
      }
      var charged := if fee > 0 then Transfer(pulled, req.token, factory, feeRecipient, fee).value else pulled;
      TransferMoves(charged, req.token, factory, stream, req.deposit, t, h);
    }
  }

  lemma SettleGoesThrough(b: Balances, factory: Address, req: Request, fee: nat, feeRecipient: Address, stream: Address)
    requires req.deposit > 0
    ensures Settle(b, factory, req, fee, feeRecipient, stream).Some? <==>
            req.sender != factory && req.deposit + fee <= BalanceOf(b, req.token, req.sender)
  {
    if req.sender != factory && req.deposit + fee <= BalanceOf(b, req.token, req.sender) {
      TransferMoves(b, req.token, req.sender, factory, req.deposit + fee, req.token, factory);
      if fee > 0 {
        var pulled := Transfer(b, req.token, req.sender, factory, req.deposit + fee).value;
        TransferMoves(pulled, req.token, factory, feeRecipient, fee, req.token, factory);
      }
    }
  }

  /** Money moved by one creation: the sender pays deposit and fee, the stream receives the
      deposit, the fee recipient the fee; nobody else, the factory included, gains or loses.
      It goes through exactly when an account other than the factory can cover it. */
  lemma SettlePays(b: Balances, factory: Address, req: Request, fee: nat, feeRecipient: Address, stream: Address)
    requires req.deposit > 0 && stream != factory
    ensures var after := Settle(b, factory, req, fee, feeRecipient, stream);
            && (after.Some? <==> req.sender != factory && req.deposit + fee <= BalanceOf(b, req.token, req.sender))
            && (after.Some? ==>
                  forall t, h :: BalanceOf(after.value, t, h) == BalanceOf(b, t, h) + Gain(req, fee, feeRecipient, stream, t, h))
  {
    var after := Settle(b, factory, req, fee, feeRecipient, stream);
    SettleGoesThrough(b, factory, req, fee, feeRecipient, stream);
    if after.Some? {
      forall t, h
        ensures BalanceOf(after.value, t, h) == BalanceOf(b, t, h) + Gain(req, fee, feeRecipient, stream, t, h)
      {
        SettlePaysOne(b, factory, req, fee, feeRecipient, stream, t, h);
      }
    }
  }

  /** From `b` to `after`, deposit and fee went from the sender to the stream and the fee recipient, and nothing
      else moved. */
  ghost predicate Paid(b: Balances, after: Balances, req: Request, fee: nat, feeRecipient: Address, stream: Address) {
    forall t, h :: BalanceOf(after, t, h) == BalanceOf(b, t, h) + Gain(req, fee, feeRecipient, stream, t, h)
  }

  /** What it takes to create stream `id` in the factory's name when the sender holds `funds`. */
  ghost predicate Creatable(factory: Address, config: GovernorConfig, now: nat, req: Request, id: nat, fee: nat, funds: int) {
    && Acceptable(req, now) && WithinBounds(config, req.rate, req.start, req.end, now)
    && Charged(fee, req.deposit, config.feeBps)
    && req.deposit * config.feeBps <= I128_MAX && req.deposit + fee <= I128_MAX
    && id < U64_MAX
    && config.forceCancelPauseSecs > 0 && (req.end > 0 ==> req.end <= req.start + 3_155_760_000)
    && req.sender != factory && req.deposit + fee <= funds
  }

  function Depth(a: Address): nat {
    if a.Account? then 0 else Depth(a.deployer) + 1
  }

  lemma DeployedElsewhere(a: Address, salt: nat)
    ensures Deployed(a, salt) != a
  {
    assert Depth(Deployed(a, salt)) == Depth(a) + 1;
  }

  /** Everything the registry keeps in storage, and the token balances, as one value: what the
      host restores when a call fails. */
  datatype State = State(
    wasmHash: Option<nat>, governor: Option<Address>, streamCount: Option<nat>, aggregate: Option<Aggregate>,
    createLock: bool, streamAddr: map<nat, Address>, known: set<Address>, saltUsed: set<nat>, balances: Balances,
    bySender: map<Address, Entries>, byRecipient: map<Address, Entries>)

  function AddressOf(factory: Address, id: nat): Address { Deployed(factory, ComputeSalt(id)) }

  /** Addresses, known contracts, used salts and totals cover exactly the ids below the count. */
  ghost predicate Registered(factory: Address, streamCount: Option<nat>, wasmHash: Option<nat>, aggregate: Option<Aggregate>,
                             streamAddr: map<nat, Address>, known: set<Address>, saltUsed: set<nat>)
  {
    var n := streamCount.GetOr(0);
    && (streamCount.Some? <==> wasmHash.Some?)
    && (streamCount.Some? ==> aggregate == Some(Aggregate(n, n)))
    && (forall id :: id in streamAddr <==> 0 <= id < n)
    && (forall id :: id in streamAddr ==> streamAddr[id] == AddressOf(factory, id))
    && (forall a :: a in known <==> exists id: nat :: id < n && a == AddressOf(factory, id))
    && (forall salt :: salt in saltUsed <==> exists id: nat :: id < n && salt == ComputeSalt(id))
  }

  /** As many ids as an index can count. */
  function Capped(ids: seq<nat>): seq<nat> { ids[..Min(|ids|, U32_MAX)] }

  /** What a party's list shows: only its ids, in strictly increasing order; and one that is missing came after
      a full list. */
  ghost predicate ListsParty(list: seq<nat>, parties: seq<Address>, a: Address) {
    && (forall i :: i in list ==> 0 <= i < |parties| && parties[i] == a)
    && (forall j, k :: 0 <= j < k < |list| ==> list[j] < list[k])
    && (forall i :: 0 <= i < |parties| && parties[i] == a && i !in list ==> |list| == U32_MAX && forall k :: 0 <= k < |list| ==> list[k] < i)
  }

  lemma CappedListsParty(parties: seq<Address>, a: Address)
    ensures ListsParty(Capped(IdsOf(parties, a)), parties, a)
  {
    hide IdsOf, Capped;
    var ids := IdsOf(parties, a);
    IdsOfIsPositions(parties, a);
    CappedIsPrefix(ids);
    forall i | i in ids && i !in Capped(ids)
      ensures |Capped(ids)| == U32_MAX && forall k :: 0 <= k < |Capped(ids)| ==> Capped(ids)[k] < i
    {
      MissingIsLater(ids, i);
    }
  }

  lemma CappedIsPrefix(ids: seq<nat>)
    ensures Capped(ids) <= ids && forall i :: i in Capped(ids) ==> i in ids
  {
  }

  /** What a full increasing list leaves out comes after all it holds. */
  lemma MissingIsLater(ids: seq<nat>, i: nat)
    requires forall j, k :: 0 <= j < k < |ids| ==> ids[j] < ids[k]
    requires i in ids && i !in Capped(ids)
    ensures |Capped(ids)| == U32_MAX && forall k :: 0 <= k < |Capped(ids)| ==> Capped(ids)[k] < i
  {
    var j :| 0 <= j < |ids| && ids[j] == i;
    var list := Capped(ids);
    assert forall k :: 0 <= k < |list| ==> list[k] == ids[k] && list[k] in list;
  }

  lemma CappedGrows(ids: seq<nat>, more: seq<nat>)
    ensures Capped(Capped(ids) + more) == Capped(ids + more)
  {
  }

  /** One account's index lists the ids in which it is the party, as far as it can count. */
  ghost predicate IndexedFor(e: Entries, ids: seq<nat>) {
    Sound(e) && LegacyFree(e) && Contents(e) == Capped(ids) && (|ids| <= U32_MAX ==> WellFormed(e))
  }

  /** So does every account's. */
  ghost predicate Indexed(accounts: map<Address, Entries>, parties: seq<Address>) {
    forall a :: IndexedFor(EntriesIn(accounts, a), IdsOf(parties, a))
  }

  lemma IndexedIsSound(e: Entries, ids: seq<nat>)
    requires IndexedFor(e, ids)
    ensures Sound(e) && LegacyFree(e) && AppendBase(LegacyTotal(e)) == 0
  {
  }

  /** An append keeps that, with or without room. */
  lemma AppendKeepsIndexed(before: Entries, after: Entries, ids: seq<nat>, id: nat)
    requires IndexedFor(before, ids)
    requires Contents(after) == AfterAppend(Contents(before), HasRoom(before), id)
    requires HasRoom(before) ==> WellFormed(after)
    requires LegacyFree(after) && Sound(after)
    ensures IndexedFor(after, ids + [id])
  {
    hide WellFormed, Overfull, Contents;
    assert HasRoom(before) <==> |Contents(before)| < U32_MAX;
    if |ids| < U32_MAX {
      assert Capped(ids) == ids && Capped(ids + [id]) == ids + [id];
    } else {
      assert Capped(ids + [id]) == Capped(ids);
    }
  }

  class Factory {
    const self: Address

    var wasmHash: Option<nat>
    var governor: Option<Address>
    var streamCount: Option<nat>
    var aggregate: Option<Aggregate>
    var createLock: bool
    var streamAddr: map<nat, Address>
    var known: set<Address>
    var saltUsed: set<nat>
    var balances: Balances
    const senders: IndexStore
    const recipients: IndexStore

    ghost var log: seq<Request>  // the request behind each stream, by id

    /** Between transactions the lock is free and the registry is consistent. */
    ghost predicate Valid()
      reads this, senders, recipients
    {
      !createLock && Consistent()
    }

    /** Ids, addresses, salts, counters and both indexes tell the same story as the log of creations. */
    ghost predicate Consistent()
      reads this, senders, recipients
    {
      && senders != recipients
      && streamCount.GetOr(0) == |log| && (streamCount.Some? <==> governor.Some?)
      && Registered(self, streamCount, wasmHash, aggregate, streamAddr, known, saltUsed)
      && Indexed(senders.accounts, SendersOf(log))
      && Indexed(recipients.accounts, RecipientsOf(log))
    }

    ghost function Now(): State
      reads this, senders, recipients
    {
      State(wasmHash, governor, streamCount, aggregate, createLock, streamAddr, known, saltUsed, balances,
            senders.accounts, recipients.accounts)
    }

    constructor (self: Address, balances: Balances)
      ensures Valid() && streamCount.None? && this.balances == balances && this.self == self
      ensures fresh(senders) && fresh(recipients)
    {
      this.self, this.balances := self, balances;
      wasmHash, governor, streamCount, aggregate, createLock := None, None, None, None, false;
      streamAddr, known, saltUsed := map[], {}, {};
      log := [];
      senders := new IndexStore(map[]);
      recipients := new IndexStore(map[]);
    }

    method Initialize(streamWasmHash: nat, governorAddress: Address) returns (r: Option<Error>)
      requires Valid()
      modifies this
      ensures Valid() && log == old(log)
      ensures r.Some? ==> Now() == old(Now())
      ensures r == if old(streamCount).Some? then Some(AlreadyInitialized)
                   else if streamWasmHash == 0 then Some(InvalidWasmHash)
                   else if governorAddress == ZERO_ADDRESS then Some(InvalidGovernor) else None
      ensures r.None? ==> streamCount == Some(0) && governor == Some(governorAddress) && wasmHash == Some(streamWasmHash)
    {
      if streamCount.Some? {
        return Some(AlreadyInitialized);
      }
      if streamWasmHash == 0 {
        return Some(InvalidWasmHash);
      }
      if governorAddress == ZERO_ADDRESS {
        return Some(InvalidGovernor);
      }
      wasmHash, governor, streamCount := Some(streamWasmHash), Some(governorAddress), Some(0);
      aggregate := Some(Aggregate(0, 0));
      r := None;
    }

    /** Pulls deposit and fee from the sender, forwards the fee, and funds the new stream. */
    method MoveFunds(req: Request, fee: nat, feeRecipient: Address, stream: Address) returns (failure: Option<Error>)
      requires req.deposit > 0 && stream != self
      modifies this`balances
      ensures failure.None? <==> Settle(old(balances), self, req, fee, feeRecipient, stream).Some?
      ensures failure.None? ==> balances == Settle(old(balances), self, req, fee, feeRecipient, stream).value
      ensures failure.Some? ==> failure.value == HostTrap || failure.value == DepositTransferFailed
    {
      hide BalanceOf, Transfer;
      var before := balances;
      var pulled := Transfer(before, req.token, req.sender, self, req.deposit + fee);
      if pulled.None? {
        return Some(HostTrap);
      }
      TransferMoves(before, req.token, req.sender, self, req.deposit + fee, req.token, self);
      balances := pulled.value;
      if BalanceOf(balances, req.token, self) != BalanceOf(before, req.token, self) + req.deposit + fee {
        return Some(DepositTransferFailed);
      }
      if fee > 0 {
        TransferMoves(balances, req.token, self, feeRecipient, fee, req.token, self);
        balances := Transfer(balances, req.token, self, feeRecipient, fee).value;
      }
      var charged := balances;
      TransferMoves(charged, req.token, self, stream, req.deposit, req.token, stream);
      balances := Transfer(charged, req.token, self, stream, req.deposit).value;
      if BalanceOf(balances, req.token, stream) != BalanceOf(charged, req.token, stream) + req.deposit {
        assert false;  // a well-behaved token delivers to an address other than the factory's
      }
      failure := None;
    }

    /** Deploys under the id's salt and returns the new address. */
    method DeployStream(id: nat) returns (r: Result<Address, Error>)
      modifies this`saltUsed
      ensures r == if ComputeSalt(id) in old(saltUsed) then Err(SaltAlreadyUsed) else Ok(AddressOf(self, id))
      ensures saltUsed == old(saltUsed) + {ComputeSalt(id)}
    {
      var salt := ComputeSalt(id);
      if salt in saltUsed {
        return Err(SaltAlreadyUsed);
      }
      saltUsed := saltUsed + {salt};
      r := Ok(Deployed(self, salt));
    }

    /** Deploys the stream and enters it under its id, its address and its salt. */
    method Register(id: nat)
      requires Registered(self, streamCount, wasmHash, aggregate, streamAddr, known, saltUsed) && streamCount == Some(id)
      modifies this`saltUsed, this`streamAddr, this`known, this`streamCount, this`aggregate
      ensures Registered(self, streamCount, wasmHash, aggregate, streamAddr, known, saltUsed) && streamCount == Some(id + 1)
    {
      var deployed := DeployStream(id);
      if deployed.Err? {
        assert false;  // the salt of a new id is never in use
      }
      streamAddr := streamAddr[id := deployed.value];
      known := known + {deployed.value};
      streamCount := Some(id + 1);
      var totals := aggregate.GetOr(Aggregate(0, 0));
      aggregate := Some(Aggregate(totals.totalSupply + 1, totals.activeStreams + 1));
    }

    /** Appends the new id to one direction's index. */
    static method IndexStream(store: IndexStore, who: Address, id: nat, ghost parties: seq<Address>)
      requires Indexed(store.accounts, parties) && id == |parties|
      modifies store
      ensures Indexed(store.accounts, parties + [who])
    {
      hide IndexedFor, AfterAppend, HasRoom, IdsOf;
      assert IndexedFor(store.EntriesOf(who), IdsOf(parties, who));
      ghost var before := store.accounts;
      IndexedIsSound(store.EntriesOf(who), IdsOf(parties, who));
      var trapped := store.AppendIndexEntry(who, id);
      AppendKeepsIndexed(EntriesIn(before, who), EntriesIn(store.accounts, who), IdsOf(parties, who), id);
      forall a ensures IndexedFor(EntriesIn(store.accounts, a), IdsOf(parties + [who], a)) {
        IdsOfExtends(parties, who, a);
        assert IndexedFor(EntriesIn(before, a), IdsOf(parties, a));
        if a != who {
          assert store.EntriesOf(a) == EntriesIn(before, a);
          assert IdsOf(parties, a) + [] == IdsOf(parties, a);
        }
      }
    }

    method IndexBoth(req: Request, id: nat)
      requires senders != recipients
      requires Indexed(senders.accounts, SendersOf(log)) && Indexed(recipients.accounts, RecipientsOf(log))
      requires id == |log|
      modifies this`log, senders, recipients
      ensures log == old(log) + [req]
      ensures Indexed(senders.accounts, SendersOf(log)) && Indexed(recipients.accounts, RecipientsOf(log))
    {
      hide Indexed;
      IndexStream(senders, req.sender, id, SendersOf(log));
      IndexStream(recipients, req.recipient, id, RecipientsOf(log));
      log := log + [req];
      assert SendersOf(log) == SendersOf(old(log)) + [req.sender];
      assert RecipientsOf(log) == RecipientsOf(old(log)) + [req.recipient];
    }

    /** Registers the stream and indexes it under both parties. */
    method Enter(req: Request, id: nat)
      requires Consistent() && streamCount == Some(id)
      modifies this`saltUsed, this`streamAddr, this`known, this`streamCount, this`aggregate, this`log, senders, recipients
      ensures Consistent() && streamCount == Some(id + 1) && log == old(log) + [req]
    {
      hide Registered, Indexed;
      Register(id);
      IndexBoth(req, id);
    }

    /** The stateful half of a creation. A failing call may leave writes behind; the entry points
        below undo them as the host does. */
    method CreateFunded(config: GovernorConfig, req: Request, fee: nat) returns (r: Result<nat, Error>)
      requires Consistent() && streamCount.Some? && req.deposit > 0
      modifies this, senders, recipients
      ensures r.Ok? <==> !old(createLock) && Payable(old(balances), config, req, fee, old(streamCount).value).Some?
      ensures r.Ok? ==>
                && Valid() && governor == old(governor)
                && r.value == old(streamCount).value && streamCount == Some(r.value + 1)
                && log == old(log) + [req]
                && Some(balances) == Payable(old(balances), config, req, fee, r.value)
      ensures old(createLock) ==> r == Err(CreateLocked)
      ensures !old(createLock) && r.Err? ==> r.error == HostTrap || r.error == DepositTransferFailed
    {
      hide Registered, Indexed;
      if createLock {
        return Err(CreateLocked);
      }
      createLock := true;
      var id := streamCount.GetOr(0);
      DeployedElsewhere(self, ComputeSalt(id));
      var failure := MoveFunds(req, fee, config.feeRecipient, AddressOf(self, id));
      if failure.Some? {
        createLock := false;
        return Err(failure.value);
      }
      if id >= U64_MAX || InitializeTraps(config, req) {
        return Err(HostTrap);
      }
      Enter(req, id);
      createLock := false;
      r := Ok(id);
    }

    /** The balances after stream `id` is paid for; `None` if it cannot be, if the stream refuses to initialize,
        or if ids have run out. */
    function Payable(b: Balances, config: GovernorConfig, req: Request, fee: nat, id: nat): Option<Balances>
      requires req.deposit >= 0
    {
      if id >= U64_MAX || InitializeTraps(config, req) then None
      else Settle(b, self, req, fee, config.feeRecipient, AddressOf(self, id))
    }

    /** The balances after a whole request succeeds; `None` if any of its conditions fails. */
    function Outcome(b: Balances, config: GovernorConfig, now: nat, req: Request, id: nat): Option<Balances> {
      if !Acceptable(req, now) || !WithinBounds(config, req.rate, req.start, req.end, now) || !FeeFits(req.deposit, config.feeBps)
      then None
      else Payable(b, config, req, Fee(req.deposit, config.feeBps), id)
    }

    /** A request succeeds exactly if all that is met, and then it is paid for as it says. */
    lemma OutcomeIs(b: Balances, config: GovernorConfig, now: nat, req: Request, id: nat, fee: nat)
      requires req.deposit > 0 ==> Charged(fee, req.deposit, config.feeBps)
      ensures var after := Outcome(b, config, now, req, id);
              && (after.Some? <==> Creatable(self, config, now, req, id, fee, BalanceOf(b, req.token, req.sender)))
              && (after.Some? ==> Paid(b, after.value, req, fee, config.feeRecipient, AddressOf(self, id)))
    {
      hide Settle, BalanceOf, WithinBounds, Charged, Gain;
      if req.deposit > 0 {
        FeeRule(req.deposit, config.feeBps, fee);
        DeployedElsewhere(self, ComputeSalt(id));
        SettlePays(b, self, req, fee, config.feeRecipient, AddressOf(self, id));
      }
    }

    /** The same, for the one fee there can be. */
    lemma OutcomeIff(b: Balances, config: GovernorConfig, now: nat, req: Request, id: nat)
      ensures var after := Outcome(b, config, now, req, id);
              && (after.Some? <==> exists fee :: Creatable(self, config, now, req, id, fee, BalanceOf(b, req.token, req.sender)))
              && (after.Some? ==> exists fee :: Charged(fee, req.deposit, config.feeBps)
                                                && Paid(b, after.value, req, fee, config.feeRecipient, AddressOf(self, id)))
    {
      hide Outcome, BalanceOf, Paid;
      var fee := Fee(if req.deposit > 0 then req.deposit else 0, config.feeBps);
      if req.deposit > 0 {
        FeeRule(req.deposit, config.feeBps, fee);
      }
      OutcomeIs(b, config, now, req, id, fee);
      forall other: nat | Creatable(self, config, now, req, id, other, BalanceOf(b, req.token, req.sender))
        ensures Outcome(b, config, now, req, id).Some?
      {
        OutcomeIs(b, config, now, req, id, other);
      }
    }

    lemma RejectedHasNoOutcome(b: Balances, config: GovernorConfig, now: nat, req: Request, id: nat)
      requires !Acceptable(req, now)
      ensures Outcome(b, config, now, req, id).None?
    {
    }

    /** Creation of a validated request, from the governor's bounds to the index entries. */
    method CreateStreamWithConfig(config: GovernorConfig, now: nat, req: Request) returns (r: Result<nat, Error>)
      requires Valid() && streamCount.Some? && Acceptable(req, now)
      modifies this, senders, recipients
      ensures r.Ok? <==> Outcome(old(balances), config, now, req, old(streamCount).value).Some?
      ensures r.Ok? ==>
                && Valid() && governor == old(governor)
                && r.value == old(streamCount).value && streamCount == Some(r.value + 1)
                && log == old(log) + [req]
                && Some(balances) == Outcome(old(balances), config, now, req, r.value)
      ensures Terms(config, now, req).Err? ==> r == Err(Terms(config, now, req).error)
      ensures Terms(config, now, req).Ok? && r.Err? ==> r.error == HostTrap || r.error == DepositTransferFailed
    {
      hide Registered, Indexed, Payable;
      var terms := Terms(config, now, req);
      if terms.Err? {
        return Err(terms.error);
      }
      r := CreateFunded(config, req, terms.value);
    }

    /** One request of a batch. */
    method ValidateAndCreate(config: GovernorConfig, now: nat, req: Request) returns (r: Result<nat, Error>)
      requires Valid() && streamCount.Some?
      modifies this, senders, recipients
      ensures r.Ok? <==> Outcome(old(balances), config, now, req, old(streamCount).value).Some?
      ensures r.Ok? ==>
                && Valid() && governor == old(governor)
                && r.value == old(streamCount).value && streamCount == Some(r.value + 1)
                && log == old(log) + [req]
                && Some(balances) == Outcome(old(balances), config, now, req, r.value)
      ensures r.Err? ==> r.error != SaltAlreadyUsed
    {
      hide Registered, Indexed, Outcome, Contents, Acceptable, WithinBounds, FeeFits;
      r := ValidateStreamRequest(req, now);
      if r.Err? {
        RejectedHasNoOutcome(balances, config, now, req, streamCount.value);
        return;
      }
      r := CreateStreamWithConfig(config, now, req);
    }

    /** Reads the whole storage, as the host does when a call begins. */
    method Save() returns (saved: State)
      ensures saved == Now()
    {
      saved := State(wasmHash, governor, streamCount, aggregate, createLock, streamAddr, known, saltUsed, balances,
                     senders.accounts, recipients.accounts);
    }

    /** The host's rollback of a failed call. */
    method Restore(saved: State, ghost savedLog: seq<Request>)
      requires senders != recipients
      modifies this, senders, recipients
      ensures Now() == saved && log == savedLog
    {
      wasmHash, governor, streamCount, aggregate := saved.wasmHash, saved.governor, saved.streamCount, saved.aggregate;
      createLock, streamAddr, known, saltUsed := saved.createLock, saved.streamAddr, saved.known, saved.saltUsed;
      balances := saved.balances;
      senders.accounts, recipients.accounts := saved.bySender, saved.byRecipient;
      log := savedLog;
    }

    /** The error a request is refused with before any money moves, if it is. */
    function Refusal(req: Request, descriptionLen: Option<nat>, paused: bool, now: nat, governor: Option<Address>, config: Option<GovernorConfig>)
      : (r: Option<Error>)
      ensures paused ==> r == Some(ContractPaused)
      ensures !paused && !Acceptable(req, now) ==> r.Some? && Faulty(r.value, req, now)
      ensures !paused && Acceptable(req, now) ==>
                if descriptionLen.GetOr(0) > 128 then r == Some(DescriptionTooLong)
                else if governor.None? then r == Some(NotInitialized)
                else if config.None? then r == Some(GovernorNotResponding)
                else if !WithinBounds(config.value, req.rate, req.start, req.end, now)
                then r == EnforceBounds(config.value, req.rate, req.start, req.end, now)
                else r == if FeeFits(req.deposit, config.value.feeBps) then None else Some(ArithmeticOverflow)
    {
      if paused then Some(ContractPaused)
      else if ValidateStreamRequest(req, now).Err? then Some(ValidateStreamRequest(req, now).error)
      else if descriptionLen.GetOr(0) > MAX_DESCRIPTION_LEN then Some(DescriptionTooLong)
      else if governor.None? then Some(NotInitialized)
      else if config.None? then Some(GovernorNotResponding)
      else if Terms(config.value, now, req).Err? then Some(Terms(config.value, now, req).error)
      else None
    }

    /** One stream: either everything the request asks for, or an error and no change at all. */
    method CreateStream(req: Request, descriptionLen: Option<nat>, paused: bool, now: nat, config: Option<GovernorConfig>)
      returns (r: Result<nat, Error>)
      requires Valid()
      modifies this, senders, recipients
      ensures Valid()
      ensures r.Ok? <==>
                && !paused && descriptionLen.GetOr(0) <= MAX_DESCRIPTION_LEN && old(streamCount).Some? && config.Some?
                && Outcome(old(balances), config.value, now, req, old(streamCount).value).Some?
      ensures r.Ok? ==>
                && r.value == old(streamCount).value && streamCount == Some(r.value + 1)
                && log == old(log) + [req]
                && Some(balances) == Outcome(old(balances), config.value, now, req, r.value)
      ensures r.Ok? <==>
                && !paused && descriptionLen.GetOr(0) <= 128 && old(streamCount).Some? && config.Some?
                && exists fee :: Creatable(self, config.value, now, req, old(streamCount).value, fee,
                                           BalanceOf(old(balances), req.token, req.sender))
      ensures r.Ok? ==>
                exists fee :: Charged(fee, req.deposit, config.value.feeBps)
                              && Paid(old(balances), balances, req, fee, config.value.feeRecipient, AddressOf(self, r.value))
      ensures r.Err? ==> Now() == old(Now()) && log == old(log)
      ensures var refusal := Refusal(req, descriptionLen, paused, now, old(governor), config);
              if refusal.Some? then r == Err(refusal.value)
              else r.Err? ==> r.error == HostTrap || r.error == DepositTransferFailed
    {
      if paused {
        return Err(ContractPaused);
      }
      var validated := ValidateStreamRequest(req, now);
      if validated.Err? {
        return validated;
      }
      if descriptionLen.GetOr(0) > MAX_DESCRIPTION_LEN {
        return Err(DescriptionTooLong);
      }
      if governor.None? {
        return Err(NotInitialized);
      }
      if config.None? {
        return Err(GovernorNotResponding);
      }
      hide Registered, Indexed, Outcome, Acceptable, Creatable, Charged, Paid, BalanceOf;
      OutcomeIff(balances, config.value, now, req, streamCount.value);
      var saved := Save();
      ghost var savedLog := log;
      r := CreateStreamWithConfig(config.value, now, req);
      if r.Err? {
        Restore(saved, savedLog);
      }
    }

    /** The balances after a whole batch succeeds, each request paid for after the ones before it. */
    function BatchOutcome(b: Balances, config: GovernorConfig, now: nat, requests: seq<Request>, id: nat): Option<Balances> {
      if requests == [] then Some(b)
      else
        var n := |requests| - 1;
        var earlier := BatchOutcome(b, config, now, requests[..n], id);
        if earlier.None? then None else Outcome(earlier.value, config, now, requests[n], id + n)
    }

    /** What the creation of `requests`, as streams `id` and up, changes in the balance of holder `h` of token `t`. */
    ghost function TotalGain(requests: seq<Request>, fees: seq<nat>, feeRecipient: Address, id: nat, t: Address, h: Address): int
      requires |fees| == |requests|
    {
      if requests == [] then 0
      else
        var n := |requests| - 1;
        TotalGain(requests[..n], fees[..n], feeRecipient, id, t, h)
        + Gain(requests[n], fees[n], feeRecipient, AddressOf(self, id + n), t, h)
    }

    /** The `i`-th request can be met out of what its sender holds after the ones before it. */
    ghost predicate CreatableAfter(b: Balances, config: GovernorConfig, now: nat, requests: seq<Request>, id: nat, fees: seq<nat>, i: nat)
      requires |fees| == |requests| && i < |requests|
    {
      var req := requests[i];
      Creatable(self, config, now, req, id + i, fees[i],
                BalanceOf(b, req.token, req.sender)
                + TotalGain(requests[..i], fees[..i], config.feeRecipient, id, req.token, req.sender))
    }

    ghost predicate AllCreatable(b: Balances, config: GovernorConfig, now: nat, requests: seq<Request>, id: nat, fees: seq<nat>) {
      |fees| == |requests| && forall i :: 0 <= i < |requests| ==> CreatableAfter(b, config, now, requests, id, fees, i)
    }

    /** From `b` to `after`, each request was paid for with its fee, and nothing else moved. */
    ghost predicate AllPaid(b: Balances, after: Balances, config: GovernorConfig, requests: seq<Request>, id: nat, fees: seq<nat>) {
      && |fees| == |requests|
      && (forall i :: 0 <= i < |requests| ==> Charged(fees[i], requests[i].deposit, config.feeBps))
      && forall t, h :: BalanceOf(after, t, h) == BalanceOf(b, t, h) + TotalGain(requests, fees, config.feeRecipient, id, t, h)
    }

    ghost predicate FeesFor(config: GovernorConfig, requests: seq<Request>, fees: seq<nat>) {
      |fees| == |requests| && forall i :: 0 <= i < |requests| && requests[i].deposit > 0 ==> Charged(fees[i], requests[i].deposit, config.feeBps)
    }

    lemma AllCreatableStep(b: Balances, config: GovernorConfig, now: nat, requests: seq<Request>, id: nat, fees: seq<nat>)
      requires |fees| == |requests| > 0
      ensures var n := |requests| - 1;
              AllCreatable(b, config, now, requests, id, fees) <==>
              AllCreatable(b, config, now, requests[..n], id, fees[..n]) && CreatableAfter(b, config, now, requests, id, fees, n)
    {
      hide Creatable, BalanceOf, TotalGain;
      var n := |requests| - 1;
      forall i | 0 <= i < n
        ensures CreatableAfter(b, config, now, requests[..n], id, fees[..n], i) <==> CreatableAfter(b, config, now, requests, id, fees, i)
      {
        assert requests[..n][..i] == requests[..i] && fees[..n][..i] == fees[..i];
      }
    }

    lemma AllPaidStep(b: Balances, mid: Balances, after: Balances, config: GovernorConfig, requests: seq<Request>, id: nat, fees: seq<nat>)
      requires |fees| == |requests| > 0
      requires var n := |requests| - 1;
               && AllPaid(b, mid, config, requests[..n], id, fees[..n]) && Charged(fees[n], requests[n].deposit, config.feeBps)
               && Paid(mid, after, requests[n], fees[n], config.feeRecipient, AddressOf(self, id + n))
      ensures AllPaid(b, after, config, requests, id, fees)
    {
      hide Gain, BalanceOf, Charged, AddressOf;
      var n := |requests| - 1;
      forall i | 0 <= i < |requests| ensures Charged(fees[i], requests[i].deposit, config.feeBps) {
        if i < n {
          assert Charged(fees[..n][i], requests[..n][i].deposit, config.feeBps);
        }
      }
    }

    /** A batch succeeds exactly if each of its requests can be met after the ones before it. */
    lemma {:induction false} BatchIs(b: Balances, config: GovernorConfig, now: nat, requests: seq<Request>, id: nat, fees: seq<nat>)
      requires FeesFor(config, requests, fees)
      ensures BatchOutcome(b, config, now, requests, id).Some? <==> AllCreatable(b, config, now, requests, id, fees)
      ensures BatchOutcome(b, config, now, requests, id).Some? ==>
                AllPaid(b, BatchOutcome(b, config, now, requests, id).value, config, requests, id, fees)
    {
      hide Outcome, BalanceOf, Charged, Gain, Paid, AllCreatable, AllPaid;
      if requests == [] {
        BatchOfNone(b, config, now, id, fees);
      } else {
        var n := |requests| - 1;
        var earlier := BatchOutcome(b, config, now, requests[..n], id);
        BatchIs(b, config, now, requests[..n], id, fees[..n]);
        AllCreatableStep(b, config, now, requests, id, fees);
        if earlier.Some? {
          LastOfBatch(b, earlier.value, config, now, requests, id, fees);
        }
      }
    }

    lemma BatchOfNone(b: Balances, config: GovernorConfig, now: nat, id: nat, fees: seq<nat>)
      requires |fees| == 0
      ensures AllCreatable(b, config, now, [], id, fees) && AllPaid(b, b, config, [], id, fees)
    {
    }

    lemma LastOfBatch(b: Balances, mid: Balances, config: GovernorConfig, now: nat, requests: seq<Request>, id: nat, fees: seq<nat>)
      requires requests != [] && FeesFor(config, requests, fees)
      requires AllPaid(b, mid, config, requests[..|requests| - 1], id, fees[..|requests| - 1])
      ensures var n := |requests| - 1;
              var after := Outcome(mid, config, now, requests[n], id + n);
              && (after.Some? <==> CreatableAfter(b, config, now, requests, id, fees, n))
              && (after.Some? ==> AllPaid(b, after.value, config, requests, id, fees))
    {
      hide Outcome, BalanceOf, Gain, Paid, TotalGain, Charged, AddressOf;
      var n := |requests| - 1;
      var req := requests[n];
      OutcomeIs(mid, config, now, req, id + n, fees[n]);
      assert BalanceOf(mid, req.token, req.sender) ==
             BalanceOf(b, req.token, req.sender) + TotalGain(requests[..n], fees[..n], config.feeRecipient, id, req.token, req.sender);
      if Outcome(mid, config, now, req, id + n).Some? {
        AllPaidStep(b, mid, Outcome(mid, config, now, req, id + n).value, config, requests, id, fees);
      }
    }

    ghost function FeesOf(requests: seq<Request>, feeBps: nat): seq<nat> {
      seq(|requests|, i requires 0 <= i < |requests| => if requests[i].deposit > 0 then Fee(requests[i].deposit, feeBps) else 0)
    }

    lemma BatchIff(b: Balances, config: GovernorConfig, now: nat, requests: seq<Request>, id: nat)
      ensures var after := BatchOutcome(b, config, now, requests, id);
              && (after.Some? <==> exists fees :: AllCreatable(b, config, now, requests, id, fees))
              && (after.Some? ==> exists fees :: AllPaid(b, after.value, config, requests, id, fees))
    {
      hide BatchOutcome, AllPaid, Charged, Fee;
      var fees := FeesOf(requests, config.feeBps);
      forall i | 0 <= i < |requests| && requests[i].deposit > 0 ensures Charged(fees[i], requests[i].deposit, config.feeBps) {
        FeeRule(requests[i].deposit, config.feeBps, fees[i]);
      }
      BatchIs(b, config, now, requests, id, fees);
      forall others | AllCreatable(b, config, now, requests, id, others)
        ensures BatchOutcome(b, config, now, requests, id).Some?
      {
        AllCreatableIsCharged(b, config, now, requests, id, others);
        BatchIs(b, config, now, requests, id, others);
      }
    }

    lemma AllCreatableIsCharged(b: Balances, config: GovernorConfig, now: nat, requests: seq<Request>, id: nat, fees: seq<nat>)
      requires AllCreatable(b, config, now, requests, id, fees)
      ensures FeesFor(config, requests, fees)
    {
      hide Charged, Acceptable, WithinBounds, BalanceOf, TotalGain;
      forall i | 0 <= i < |requests| ensures Charged(fees[i], requests[i].deposit, config.feeBps) {
        assert CreatableAfter(b, config, now, requests, id, fees, i);
      }
    }

    lemma {:induction false} BatchFailsEarly(b: Balances, config: GovernorConfig, now: nat, requests: seq<Request>, id: nat, k: nat)
      requires k <= |requests| && BatchOutcome(b, config, now, requests[..k], id).None?
      ensures BatchOutcome(b, config, now, requests, id).None?
    {
      if k == |requests| {
        assert requests[..k] == requests;
      } else {
        var n := |requests| - 1;
        assert requests[..n][..k] == requests[..k];
        BatchFailsEarly(b, config, now, requests[..n], id, k);
      }
    }

    /** The creation loop, stopping at the first failure with the earlier creations still in place. */
    method CreateEach(requests: seq<Request>, now: nat, config: GovernorConfig) returns (r: Result<seq<nat>, Error>)
      requires Valid() && streamCount.Some?
      modifies this, senders, recipients
      ensures r.Ok? <==> BatchOutcome(old(balances), config, now, requests, old(streamCount).value).Some?
      ensures r.Ok? ==>
                && Valid()
                && r.value == Consecutive(old(streamCount).value, |requests|)
                && streamCount == Some(old(streamCount).value + |requests|)
                && log == old(log) + requests
                && Some(balances) == BatchOutcome(old(balances), config, now, requests, old(streamCount).value)
      ensures r.Err? ==> r.error != SaltAlreadyUsed
    {
      hide Registered, Indexed, Outcome, Contents, SendersOf, RecipientsOf, Acceptable, WithinBounds, FeeFits, EnforceBounds;
      ghost var start, paidFrom, startLog := streamCount.value, balances, log;
      var ids := [];
      var k := 0;
      while k < |requests|
        invariant 0 <= k <= |requests|
        invariant Valid() && streamCount == Some(start + k)
        invariant ids == Consecutive(start, k)
        invariant log == startLog + requests[..k]
        invariant Some(balances) == BatchOutcome(paidFrom, config, now, requests[..k], start)
      {
        assert requests[..k + 1][..k] == requests[..k];
        var created := ValidateAndCreate(config, now, requests[k]);
        if created.Err? {
          BatchFailsEarly(paidFrom, config, now, requests, start, k + 1);
          return Err(created.error);
        }
        ids := ids + [created.value];
        k := k + 1;
      }
      assert requests[..k] == requests;
      r := Ok(ids);
    }

    /** The creation loop shared by both batch entry points: all requests or none. */
    method CreateAll(requests: seq<Request>, now: nat, paused: bool, config: Option<GovernorConfig>) returns (r: Result<seq<nat>, Error>)
      requires Valid()
      modifies this, senders, recipients
      ensures Valid()
      ensures r.Ok? <==>
                && 0 < |requests| <= MAX_BATCH_SIZE && !paused && old(streamCount).Some? && config.Some?
                && BatchOutcome(old(balances), config.value, now, requests, old(streamCount).value).Some?
      ensures r.Ok? ==>
                && r.value == Consecutive(old(streamCount).value, |requests|)
                && streamCount == Some(old(streamCount).value + |requests|)
                && log == old(log) + requests
                && Some(balances) == BatchOutcome(old(balances), config.value, now, requests, old(streamCount).value)
      ensures r.Ok? <==>
                && 0 < |requests| <= 10 && !paused && old(streamCount).Some? && config.Some?
                && exists fees :: AllCreatable(old(balances), config.value, now, requests, old(streamCount).value, fees)
      ensures r.Ok? ==>
                exists fees :: AllPaid(old(balances), balances, config.value, requests, old(streamCount).value, fees)
      ensures r.Err? ==> r.error != SaltAlreadyUsed && Now() == old(Now()) && log == old(log)
    {
      hide Registered, Indexed, BatchOutcome, AllCreatable, AllPaid;
      if config.Some? && streamCount.Some? {
        BatchIff(balances, config.value, now, requests, streamCount.value);
      }
      if |requests| == 0 {
        return Err(EmptyBatch);
      }
      if |requests| > MAX_BATCH_SIZE {
        return Err(BatchTooLarge);
      }
      if paused {
        return Err(ContractPaused);
      }
      if governor.None? {
        return Err(NotInitialized);
      }
      if config.None? {
        return Err(GovernorNotResponding);
      }
      var saved := Save();
      ghost var savedLog := log;
      r := CreateEach(requests, now, config.value);
      if r.Err? {
        Restore(saved, savedLog);
      }
    }

    lemma SenderList(a: Address)
      requires Valid()
      ensures senders.List(a) == Capped(IdsOf(SendersOf(log), a))
    {
      hide Capped, IdsOf, Contents, Sound, Registered;
      assert IndexedFor(EntriesIn(senders.accounts, a), IdsOf(SendersOf(log), a));
    }

    /** One sender, many recipients: returns the new ids. */
    method CreateBatchStreams(sender: Address, requests: seq<Request>, now: nat, paused: bool, config: Option<GovernorConfig>)
      returns (r: Result<seq<nat>, Error>)
      requires Valid()
      requires forall i :: 0 <= i < |requests| ==> requests[i].sender == sender
      modifies this, senders, recipients
      ensures Valid()
      ensures r.Ok? <==>
                && 0 < |requests| <= MAX_BATCH_SIZE && !paused && old(streamCount).Some? && config.Some?
                && BatchOutcome(old(balances), config.value, now, requests, old(streamCount).value).Some?
      ensures r.Ok? ==>
                && r.value == Consecutive(old(streamCount).value, |requests|)
                && senders.List(sender) == Capped(old(senders.List(sender)) + r.value)
                && log == old(log) + requests
                && Some(balances) == BatchOutcome(old(balances), config.value, now, requests, old(streamCount).value)
      ensures r.Ok? <==>
                && 0 < |requests| <= 10 && !paused && old(streamCount).Some? && config.Some?
                && exists fees :: AllCreatable(old(balances), config.value, now, requests, old(streamCount).value, fees)
      ensures r.Ok? ==>
                exists fees :: AllPaid(old(balances), balances, config.value, requests, old(streamCount).value, fees)
      ensures r.Err? ==> Now() == old(Now()) && r.error != SaltAlreadyUsed
    {
      hide Registered, Outcome, BatchOutcome, AllCreatable, AllPaid, Acceptable, WithinBounds, FeeFits, Indexed, Capped, IdsOf, Contents;
      SenderList(sender);
      r := CreateAll(requests, now, paused, config);
      if r.Ok? {
        SenderList(sender);
        IdsOfSame(SendersOf(old(log)), sender, |requests|);
        assert SendersOf(log) == SendersOf(old(log)) + seq(|requests|, i => sender);
        CappedGrows(IdsOf(SendersOf(old(log)), sender), r.value);
      }
    }

    /** Any senders: returns the new contract addresses. */
    method BatchCreateStreams(requests: seq<Request>, now: nat, paused: bool, config: Option<GovernorConfig>)
      returns (r: Result<seq<Address>, Error>)
      requires Valid()
      modifies this, senders, recipients
      ensures Valid()
      ensures r.Ok? <==>
                && 0 < |requests| <= MAX_BATCH_SIZE && !paused && old(streamCount).Some? && config.Some?
                && BatchOutcome(old(balances), config.value, now, requests, old(streamCount).value).Some?
      ensures r.Ok? ==>
                && |r.value| == |requests| && log == old(log) + requests
                && Some(balances) == BatchOutcome(old(balances), config.value, now, requests, old(streamCount).value)
      ensures r.Ok? ==> forall i :: 0 <= i < |r.value| ==> NewStream(old(streamCount).value + i, r.value[i], old(known))
      ensures r.Ok? <==>
                && 0 < |requests| <= 10 && !paused && old(streamCount).Some? && config.Some?
                && exists fees :: AllCreatable(old(balances), config.value, now, requests, old(streamCount).value, fees)
      ensures r.Ok? ==>
                exists fees :: AllPaid(old(balances), balances, config.value, requests, old(streamCount).value, fees)
      ensures r.Err? ==> Now() == old(Now()) && r.error != SaltAlreadyUsed
    {
      hide Registered, Indexed, Outcome, BatchOutcome, AllCreatable, AllPaid;
      ghost var start := streamCount.GetOr(0);
      ghost var knownBefore := known;
      UnknownAhead();
      var ids := CreateAll(requests, now, paused, config);
      if ids.Err? {
        return Err(ids.error);
      }
      var deployed := ResolveAll(ids.value);
      forall i | 0 <= i < |deployed| ensures NewStream(start + i, deployed[i], knownBefore) {
        assert ids.value[i] == start + i;
        assert AddressOf(self, start + i) !in knownBefore;
      }
      r := Ok(deployed);
    }

    /** The addresses registered for existing ids. */
    method ResolveAll(ids: seq<nat>) returns (addresses: seq<Address>)
      requires Valid() && forall i :: 0 <= i < |ids| ==> ids[i] < streamCount.GetOr(0)
      ensures |addresses| == |ids|
      ensures forall i :: 0 <= i < |ids| ==>
                ids[i] in streamAddr && addresses[i] == streamAddr[ids[i]] == AddressOf(self, ids[i]) && addresses[i] in known
    {
      hide Indexed;
      addresses := [];
      for k := 0 to |ids|
        invariant |addresses| == k
        invariant forall i :: 0 <= i < k ==>
                    ids[i] in streamAddr && addresses[i] == streamAddr[ids[i]] == AddressOf(self, ids[i]) && addresses[i] in known
      {
        StreamOf(ids[k]);
        addresses := addresses + [streamAddr[ids[k]]];
      }
    }

    /** Stream `id` resolves to `a`, which is a known stream and was not one before. */
    ghost predicate NewStream(id: nat, a: Address, knownBefore: set<Address>)
      reads `streamAddr, `known
    {
      id in streamAddr && a == streamAddr[id] && a in known && a !in knownBefore
    }

    /** What the registry promises about its streams after any run of creations: every existing id is listed
        under exactly its creator and under exactly its recipient, in strictly increasing order, up to what a
        list can count; and addresses, known contracts and totals cover exactly the existing ids. */
    lemma RegistryPartitions(a: Address, id: nat)
      requires Valid() && streamCount.Some?
      ensures streamCount.value == |log|
      ensures ListsParty(senders.List(a), SendersOf(log), a) && ListsParty(recipients.List(a), RecipientsOf(log), a)
      ensures id in streamAddr <==> id < streamCount.value
      ensures a in known <==> exists i :: i in streamAddr && streamAddr[i] == a
      ensures aggregate == Some(Aggregate(streamCount.value, streamCount.value))
    {
      hide ListsParty, Capped, Sound, Contents;
      CappedListsParty(SendersOf(log), a);
      CappedListsParty(RecipientsOf(log), a);
      assert IndexedFor(senders.EntriesOf(a), IdsOf(SendersOf(log), a));
      assert IndexedFor(recipients.EntriesOf(a), IdsOf(RecipientsOf(log), a));
      if a in known {
        var i: nat :| i < streamCount.value && a == AddressOf(self, i);
        assert i in streamAddr;
      }
    }

    /** Ids not handed out yet have unused salts, and would be deployed at addresses never known before. */
    lemma UnknownAhead()
      requires Valid()
      ensures forall id: nat :: streamCount.GetOr(0) <= id ==> AddressOf(self, id) !in known && ComputeSalt(id) !in saltUsed
    {
    }

    lemma StreamOf(id: nat)
      requires Valid()
      ensures id < streamCount.GetOr(0) ==> id in streamAddr && streamAddr[id] == AddressOf(self, id) && AddressOf(self, id) in known
      ensures id >= streamCount.GetOr(0) ==> id !in streamAddr && AddressOf(self, id) !in known
    {
    }
  }
}
