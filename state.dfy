/**
 * The contract's persistent state: the `SWAPS` map from decimal id strings
 * to swap records and the `CONFIG` item holding the id counter, both kept in
 * the contract's storage. `Storage` stands for `deps.storage` with exactly
 * those two namespaces.
 */
module State {
  import opened Wrappers
  import opened CosmWasm
  import opened Decimal

  const U32_MAX: int := 0xFFFF_FFFF

  /** Rust's `u32`: arithmetic on it must stay in range. */
  newtype u32 = x: int | 0 <= x <= 0xFFFF_FFFF

  /** One escrowed offer: who created it and which token of which collection. */
  datatype Swap = Swap(owner: Addr, collection: Addr, tokenId: string)

  /** The id that the next created swap receives. */
  datatype Config = Config(nextSwapId: u32)

  /** `k` is the decimal form of an id in `[1, next)`. */
  predicate IsIssuedKey(k: string, next: nat) {
    match ParseDecimal(k)
    case Some(n) => 1 <= n < next
    case None => false
  }

  /** Every key of the registry is the decimal form of an id already handed out. */
  ghost predicate KeysIssued(swaps: map<string, Swap>, next: nat) {
    forall k :: k in swaps ==> IsIssuedKey(k, next)
  }

  /** An issued key is exactly the decimal string of some id below the counter. */
  lemma IssuedKeyIsDecimalId(k: string, next: nat)
    ensures IsIssuedKey(k, next) <==> exists n: nat :: 1 <= n < next && k == NatToString(n)
  {
    if IsIssuedKey(k, next) {
      var n := ParseDecimal(k).value;
      NatToStringOfParse(k);
      assert 1 <= n < next && k == NatToString(n);
    }
    if n: nat :| 1 <= n < next && k == NatToString(n) {
      ParseNatToString(n);
    }
  }

  /** No id at or above the counter has a record: such ids have never been handed out. */
  lemma FreshIdNotStored(swaps: map<string, Swap>, next: nat, m: nat)
    requires KeysIssued(swaps, next)
    requires next <= m
    ensures NatToString(m) !in swaps
  {
    ParseNatToString(m);
  }

  /** Storing a record under the counter's id and bumping the counter keeps the key discipline. */
  lemma SaveNewIdKeepsKeysIssued(swaps: map<string, Swap>, next: nat, swap: Swap)
    requires KeysIssued(swaps, next)
    requires 1 <= next
    ensures NatToString(next) !in swaps
    ensures KeysIssued(swaps[NatToString(next) := swap], next + 1)
  {
    FreshIdNotStored(swaps, next, next);
    ParseNatToString(next);
  }

  /** `deps.storage`, restricted to the "swaps" map and the "config" item. */
  class Storage {
    /** `SWAPS`: at most one record per key. */
    var swaps: map<string, Swap>
    /** `CONFIG`: absent until the contract is instantiated. */
    var config: Option<Config>
    /** Every id handed out so far, whether or not its record still exists. */
    ghost var issued: set<nat>

    /** The storage of a contract that has not been instantiated yet. */
    constructor ()
      ensures swaps == map[] && config == None && issued == {}
      ensures Valid()
    {
      swaps := map[];
      config := None;
      issued := {};
    }

    /** What every reachable state satisfies. */
    ghost predicate Valid()
      reads this
    {
      match config
      case None => swaps == map[] && issued == {}
      case Some(c) =>
        && 1 <= c.nextSwapId
        && KeysIssued(swaps, c.nextSwapId as nat)
        && (forall n: nat :: n in issued <==> 1 <= n < c.nextSwapId as nat)
    }

    /** `SWAPS.load`; its not-found error is discarded by every caller, so it is `None` here. */
    function LoadSwap(key: string): (r: Option<Swap>)
      reads this
      ensures r.Some? <==> key in swaps
      ensures r.Some? ==> r.value == swaps[key]
    {
      if key in swaps then Some(swaps[key]) else None
    }

    /** `SWAPS.save`: replaces the record under `key` only; the counter is untouched. */
    method SaveSwap(key: string, swap: Swap)
      modifies this
      ensures swaps == old(swaps)[key := swap]
      ensures config == old(config) && issued == old(issued)
    {
      swaps := swaps[key := swap];
    }

    /** `SWAPS.remove`: drops `key` only (a no-op if absent); the counter is untouched. */
    method RemoveSwap(key: string)
      modifies this
      ensures swaps == old(swaps) - {key}
      ensures config == old(config) && issued == old(issued)
    {
      swaps := swaps - {key};
    }

    /** `CONFIG.save`: replaces the counter; the map is untouched. */
    method SaveConfig(c: Config)
      modifies this
      ensures config == Some(c)
      ensures swaps == old(swaps) && issued == old(issued)
    {
      config := Some(c);
    }
  }
}
