/** Well-behaved token contracts: balances keyed by (token, holder). */
module Tokens {
  import opened Base

  type Balances = map<(Address, Address), nat>

  function BalanceOf(b: Balances, token: Address, holder: Address): nat {
    if (token, holder) in b then b[(token, holder)] else 0
  }

  /** Moves `amount`; `None` is the trap of an uncovered transfer. */
  function Transfer(b: Balances, token: Address, from: Address, to: Address, amount: nat): (r: Option<Balances>)
    ensures r.Some? <==> amount <= BalanceOf(b, token, from)
  {
    if BalanceOf(b, token, from) < amount then None
    else
      var debited := b[(token, from) := BalanceOf(b, token, from) - amount];
      Some(debited[(token, to) := BalanceOf(debited, token, to) + amount])
  }

  /** A transfer moves the amount between its two parties and nothing else; to oneself it moves nothing. */
  lemma TransferMoves(b: Balances, token: Address, from: Address, to: Address, amount: nat, t: Address, h: Address)
    requires amount <= BalanceOf(b, token, from)
    ensures BalanceOf(Transfer(b, token, from, to, amount).value, t, h) ==
            BalanceOf(b, t, h)
            + (if t == token && h == to then amount else 0)
            - (if t == token && h == from then amount else 0)
  {
  }
}
