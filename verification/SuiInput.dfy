/** The inputs of a Sui transaction: the gas coin, the coins to spend and the gas budget. */
module SuiInput {
  import opened Bytes
  import opened SuiProgram

  datatype CoinObject = CoinObject(id: string, version: u64, digest: string, balance: u64, coinType: string)

  /** The fields of a transaction input at one moment. */
  datatype InputView = InputView(gasBudget: u64, gasPrice: u64, gasCoin: CoinObject, coins: seq<CoinObject>, currentEpoch: u64)

  /** big.Int.Uint64: the low 64 bits of the absolute value. */
  function Uint64(x: int): u64 {
    (if x >= 0 then x else -x) % 0x1_0000_0000_0000_0000
  }

  /** coins without the first one that has this id. */
  function Exclude(coins: seq<CoinObject>, id: string): seq<CoinObject> {
    if coins == [] then []
    else if coins[0].id == id then coins[1..]
    else [coins[0]] + Exclude(coins[1..], id)
  }

  function Balances(coins: seq<CoinObject>): (b: nat) {
    if coins == [] then 0 else coins[0].balance + Balances(coins[1..])
  }

  lemma {:induction false} BalancesExtend(coins: seq<CoinObject>, i: nat)
    requires i < |coins|
    ensures Balances(coins[..i + 1]) == Balances(coins[..i]) + coins[i].balance
  {
    if i == 0 {
      assert coins[..1][1..] == [];
    } else {
      BalancesExtend(coins[1..], i - 1);
      assert coins[..i + 1][1..] == coins[1..][..i] && coins[..i][1..] == coins[1..][..i - 1];
    }
  }

  /** The coins' total, with the gas coin when the last coin has its type, or there is no coin. */
  function Total(v: InputView): nat {
    Balances(v.coins)
    + if v.coins == [] || v.coins[|v.coins| - 1].coinType == "" || v.coins[|v.coins| - 1].coinType == v.gasCoin.coinType
      then v.gasCoin.balance else 0
  }

  predicate Native(v: InputView) {
    v.coins == [] || v.coins[0].coinType == v.gasCoin.coinType
  }

  ghost predicate DistinctIds(coins: seq<CoinObject>) {
    forall i, j :: 0 <= i < j < |coins| ==> coins[i].id != coins[j].id
  }

  /** With distinct ids, excluding removes every coin with the id and keeps the others in order. */
  lemma {:induction false} ExcludeRemoves(coins: seq<CoinObject>, id: string)
    requires DistinctIds(coins)
    ensures DistinctIds(Exclude(coins, id))
    ensures forall c :: c in Exclude(coins, id) <==> c in coins && c.id != id
    ensures Exclude(Exclude(coins, id), id) == Exclude(coins, id)
  {
    if coins != [] {
      assert coins == [coins[0]] + coins[1..];
      ExcludeRemoves(coins[1..], id);
      if coins[0].id == id {
        NothingToExclude(coins[1..], id);
      } else {
        assert Exclude(coins, id)[1..] == Exclude(coins[1..], id);
      }
    }
  }

  lemma {:induction false} NothingToExclude(coins: seq<CoinObject>, id: string)
    requires forall c :: c in coins ==> c.id != id
    ensures Exclude(coins, id) == coins
  {
    if coins != [] {
      NothingToExclude(coins[1..], id);
    }
  }

  class TxInput {
    var gasBudget: u64
    var gasPrice: u64
    var gasCoin: CoinObject
    var coins: seq<CoinObject>
    var currentEpoch: u64

    constructor (v: InputView)
      ensures View() == v
    {
      gasBudget, gasPrice, gasCoin, coins, currentEpoch := v.gasBudget, v.gasPrice, v.gasCoin, v.coins, v.currentEpoch;
    }

    function View(): InputView
      reads this
    {
      InputView(gasBudget, gasPrice, gasCoin, coins, currentEpoch)
    }

    /** Drops the first coin with the gas coin's id, in place. */
    method ExcludeGasCoin()
      modifies this`coins
      ensures coins == Exclude(old(coins), gasCoin.id)
    {
      ghost var before := coins;
      for i := 0 to |coins|
        invariant coins == before
        invariant Exclude(before, gasCoin.id) == before[..i] + Exclude(before[i..], gasCoin.id)
      {
        if coins[i].id == gasCoin.id {
          coins := coins[..i] + coins[i + 1..];
          assert before[i..][1..] == before[i + 1..];
          return;
        }
        assert before[i..][1..] == before[i + 1..];
      }
    }

    method TotalBalance() returns (amount: nat)
      ensures amount == Total(View())
    {
      amount := 0;
      var coinType := "";
      for i := 0 to |coins|
        invariant amount == Balances(coins[..i])
        invariant coinType == if i == 0 then "" else coins[i - 1].coinType
      {
        coinType := coins[i].coinType;
        BalancesExtend(coins, i);
        amount := amount + coins[i].balance;
      }
      assert coins[..|coins|] == coins;
      if coinType == "" || coinType == gasCoin.coinType {
        amount := amount + gasCoin.balance;
      }
    }

    function IsNativeTransfer(): bool
      reads this
    {
      Native(View())
    }
  }
}
