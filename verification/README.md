# A model of the wallet library's algorithms

The library builds, signs and submits transactions for many blockchains. This project models the parts of it
that are algorithms, and proves what they promise, on all inputs they accept.

- **Dusk scalars** (`DuskMontgomery`, `DuskScalar`, `DuskCurve`): the unrolled 64-bit Montgomery multiplication,
  the reduction of a 512-bit digest, and the two double-and-add loops. Scalars are integers modulo q and the
  curve is any group.
- **CashAddr** (`CashAddrChecksum`, `CashAddrCodec`, `CashAddrField`, `CashAddrOrder`, `CashAddrTwoErrors`,
  `CashAddrExact`, `CashAddrPublished`): the 40-bit BCH code with its detection of bursts and of any two errors, and
  encoding and decoding of addresses (CashAddr specification, sections "Checksum" and "Payload"), exactly which strings
  decode, and two published addresses.
- **Bitcoin** (`BitcoinInput`, `BitcoinBuilder`, `BitcoinLedger`): selecting UTXOs, building transfers that
  conserve value, and a UTXO ledger as a state machine on which attempts reported safe cannot both land.
- **Sui** (`SuiInput`, `SuiTransfer`, `SuiStaking`, `SuiProgram`, `SuiExecution`): the programs the builders
  emit, and an interpreter that says what they do.
- **Canton** (`CantonHoldings`, `CantonTopology`): choosing the holdings that pay, and the topology multi-hash.
- **Transaction information** (`Movements`, `Fees`, `LegacyInfo`): merging movements in place, deriving fees from
  nets, and mapping the legacy form.
- **Zcash** (`ZcashTx`): the v4 encoding is uniquely decodable, and nothing else parses.
- **Tron** (`TronVotes`, `TronUnstake`, `TronTx`, `TronSubmit`): taking votes back, signing and serializing two
  transactions together, and submitting them against a chain that moves on its own.

`Bytes`, `Numbers`, `Sorting`, `Selection`, `Ordering` and `Wrappers` hold what several of these share: byte orders, the
contract of a sort, the exchange argument for greedy selection, and lists with increasing string keys.

Objects whose methods update fields are classes here, loops are loops, and each such method is proved against a
specification about which the lemmas then speak. Go's integer widths are written out where they matter.
Library functions the code calls are parameters (SHA-256, protocol-buffer encoding, address decoding) or are
modelled by their meaning (scalar field operations, bit regrouping, ordered maps, sorting).

Where the code does not do what one would expect of it:

- `MultiTransfer` does not reject inputs that fall short; the unmet remainder stands in the conservation equation.
- A sponsored Sui transfer can be built that aborts, because the balance check counts the gas coin.
- `coalesece` miscounts an asset whose first movement occurs again after something has been merged into it: listed three
  times, a movement is counted four times. That condition is exact; distinct pointers are one way to meet it.
- A character outside the CashAddr alphabet decodes like 'q'. Strings round trip, and every change within eight characters
  is detected, exactly up to that; over the alphabet without exception.
- `MultiTransfer` skips an input without a spender, but the conflict check still reports its outputs: two attempts can be
  reported safe and both land. With a spender for every input they cannot.
- `SetAmount` keeps the outputs that pay the amount without the fee, so the builder can refuse although all outputs would pay.
- The Sui balance check also counts coins beyond the merge cut-off, which the program does not gather.
- A Sui unstake of whole stakes is never compared with the amount, and one with a split is compared with balances, rewards
  included. With a validator or account given, whole stakes are refused when no stake to split matches it.
- Unstaking on Tron from no particular validator is refused when neither the unused nor the used votes alone cover
  the amount, although together they may.
- Unstaking on Tron from a named validator lowers a copy of that validator's vote, so the vote transaction repeats the old
  votes, while the comment in the source expects a new one. It is the expected one only when nothing is unstaked, and
  votes cast plus the unstaked amount then exceed the frozen votes exactly when the unused ones fall short of it.
- A Bitcoin transfer cuts amounts and change to 64 bits: one of 2^64 + 50 is built from 100 and pays 50. Outputs plus fee
  still equal what is spent, exactly when that less the fee is at least 0 and below 2^64.
- A Sui transfer takes the low 64 bits of the absolute value of the amount, so -50 delivers 50.
- The CashAddr checksum does not tell two errors exactly a multiple of 1025 symbols apart; what the decoder accepts is never that long.
- CashAddr hashes longer than 32 bytes are refused although the specification has size codes for them, and under size code
  zero hashes of 17 to 23 bytes are encoded where it has only 20; only 20-byte hashes decode again.
- With more Tron votes cast than are frozen the number of unused ones wraps around to nearly 2^64.
- Zcash encodings do not carry the lengths of transaction ids: they are unique exactly up to those lengths.

Preconditions that are part of the claims: distinct contract ids for the order independence of holding selection;
one coin type, distinct object ids and totals below 2^64 for executing Sui programs; distinct pointers for vote
reduction and signing; inputs left as they are between a conflict check and building; votes of a named validator
within unsigned 64 bits.

## Model
| member | source | states |
|---|---|---|
| DuskMontgomery.CselectSelects | chain/dusk/dusk_bls.go:423 | The branch-free word selection returns x for 0 and y for 1, on 64-bit words. |
| DuskMontgomery.MulWord | chain/dusk/dusk_bls.go:102-127 | One word times four words, limb by limb: the five result words stand for exactly the product, so the unchecked top addition never wraps. |
| DuskMontgomery.ReduceWord | chain/dusk/dusk_bls.go:128-166 | The reduction block: dividing by 2^64 after adding a multiple of q is exact, for any five words and incoming carry. |
| DuskMontgomery.RoundKeepsBound | chain/dusk/dusk_bls.go:168-394 | The running value stays below arg2 + q after a round, whatever the word of arg1. |
| DuskMontgomery.SubtractModulus | chain/dusk/dusk_bls.go:395-419 | The final borrow chain and selection subtract q exactly when the running value is at least q. |
| DuskMontgomery.MontMul | chain/dusk/dusk_bls.go:101-420 | All four rounds, for all 256-bit arguments: out * 2^256 is congruent to arg1 * arg2 modulo q, and out < q as soon as arg2 <= q. |
| DuskMontgomery.FiatScMontMul | chain/dusk/dusk_bls.go:101-420 | The same with limbs read from and written to arrays that may be one and the same; only out1 changes. |
| DuskMontgomery.MontProductUnique | chain/dusk/dusk_bls.go:101-420 | The congruence and the bound determine the result: it is arg1 * arg2 / 2^256 in the field. |
| DuskScalar.Uint64Le2BytesBe | chain/dusk/dusk_bls.go:426-437 | The big-endian bytes written for a little-endian word list stand for the same number, for any number of words. |
| DuskScalar.ScalarFromMont | chain/dusk/dusk_bls.go:68-75 | Leaving the Montgomery domain divides by 2^256 modulo q; setting the scalar from the bytes changes nothing. |
| DuskScalar.R3LeavesRadixSquared | chain/dusk/dusk_bls.go:21-26 | R3 stands for 2^512 modulo q outside the Montgomery domain. |
| DuskScalar.Blake2bScalarReduce | chain/dusk/dusk_bls.go:30-62 | For every 64-byte digest the result is exactly the little-endian 512-bit number modulo q. |
| DuskScalar.ScalarToLeBytes | chain/dusk/dusk_bls.go:78-99 | The marshalled bytes reversed, so the little-endian value equals the big-endian one; errors exactly for a failed marshal or a length that is no multiple of eight. |
| DuskCurve.TimesAdd | chain/dusk/dusk_bls.go:441-479 | Multiples of a point add up like the integers, in any group. |
| DuskCurve.ScalarMultShort | chain/dusk/dusk_bls.go:466-479 | The loop from the most significant byte computes BE(k) times P in any group. |
| DuskCurve.ScalarMultShorti | chain/dusk/dusk_bls.go:441-462 | The loop from the last byte that skips the first bit computes (little-endian k with its top bit cleared) times P. |
| DuskCurve.ClearTopValue | chain/dusk/dusk_bls.go:448-452 | Clearing the top bit is reducing modulo 2^(8n-1). |
| DuskCurve.LoopsAgree | chain/dusk/dusk_bls.go:441-479 | On reversed bytes both loops multiply by the same number if and only if the skipped bit is clear. |
| CashAddrChecksum.PolyMod | chain/bitcoin_cash/address.go:214-237 | The loop with its five conditional feedbacks computes the checksum of any byte string. |
| CashAddrChecksum.StepIs | chain/bitcoin_cash/address.go:218-234 | One step on the bits: the state moves up by a symbol and takes in the next, and each of the five bits shifted out adds its generator. |
| CashAddrChecksum.StepGap | chain/bitcoin_cash/address.go:218-234 | XOR-linearity: with equal feedback, the difference of two states only shifts and takes in the symbols' difference. |
| CashAddrChecksum.StepInjective | chain/bitcoin_cash/address.go:218-234 | For each symbol, one step is injective on 40-bit states. |
| CashAddrChecksum.RunWithin | chain/bitcoin_cash/address.go:214-237 | The register never leaves 40 bits. |
| CashAddrChecksum.WindowSeparates | chain/bitcoin_cash/address.go:214-237 | From one state, different windows of at most eight symbols lead to different states. |
| CashAddrChecksum.BurstDetected | chain/bitcoin_cash/address.go:214-237 | For words of any length that differ only within eight consecutive symbols: equal checksums if and only if equal words. |
| CashAddrChecksum.ChecksumVerifies | chain/bitcoin_cash/address.go:297-312 | Appending the eight symbols of the checksum over eight zeros brings the checksum to zero, for any bytes. |
| CashAddrCodec.ConvertBitsRoundTrip | chain/bitcoin_cash/address.go:271-285 | Regrouping bytes to 5-bit symbols with padding and back without gives the bytes back, and only symbols below 32. |
| CashAddrExact.ConvertBitsNumber | chain/bitcoin_cash/address.go:271-285 | Regrouping takes the fewest symbols that hold the bits, and they spell in base 32 what the bytes spell in base 256, times 2 for each bit of padding. |
| CashAddrCodec.EncodePrefix | chain/bitcoin_cash/address.go:254-261 | The low five bits of every prefix character, then a zero. |
| CashAddrCodec.AppendBchChecksum | chain/bitcoin_cash/address.go:297-312 | The payload with its checksum appended; the result verifies for every prefix and payload. |
| CashAddrCodec.AppendedChecksumHolds | chain/bitcoin_cash/address.go:208-212 | VerifyChecksum holds of what AppendBchChecksum returns. |
| CashAddrCodec.VerifyChecksum | chain/bitcoin_cash/address.go:208-212 | True exactly when the prefixed payload has checksum zero. |
| CashAddrCodec.CorruptionDetected | chain/bitcoin_cash/address.go:208-212 | If a payload verifies, another one of equal length that differs within eight consecutive symbols verifies only if it is the same. |
| CashAddrCodec.StringCorruptionDetected | chain/bitcoin_cash/address.go:199-212 | On strings: a change within eight consecutive characters goes undetected exactly when both strings decode alike, so over the alphabet every change is detected. |
| CashAddrCodec.AddressCorruptionDetected | chain/bitcoin_cash/address.go:154-180 | Of addresses that differ from a decodable one within eight consecutive characters, the decoder refuses all but those that decode alike, which give the same bytes; over the alphabet it refuses every one. |
| CashAddrField.StepXor | chain/bitcoin_cash/address.go:218-234 | One step is linear over exclusive or, feedback included, in state and symbol. |
| CashAddrField.ShiftScale | chain/bitcoin_cash/address.go:218-234 | Multiplying all eight symbols of a state by one symbol of the field of 32 elements commutes with a step. |
| CashAddrField.RunGap | chain/bitcoin_cash/address.go:214-237 | Two runs over the same symbols differ by what their first difference becomes when fed zeros. |
| CashAddrOrder.Order | chain/bitcoin_cash/address.go:214-237 | 1025 zeros return the register from 1 to 1, while 25 and 205 of them leave more than one symbol. |
| CashAddrTwoErrors.ReturnsExactly | chain/bitcoin_cash/address.go:214-237 | A lone symbol is a lone symbol again after n zeros if and only if n is a multiple of 1025. |
| CashAddrTwoErrors.TwoErrorsDetected | chain/bitcoin_cash/address.go:214-237 | For words of any length that differ at no more than two positions, not a multiple of 1025 apart: equal checksums if and only if equal words. |
| CashAddrTwoErrors.TwoErrorsMissed | chain/bitcoin_cash/address.go:214-237 | At a multiple of 1025 apart every word has another one, different at those two positions, with the same checksum. |
| CashAddrTwoErrors.AddressTwoErrorsDetected | chain/bitcoin_cash/address.go:154-180 | Of addresses that differ from a decodable one in any two characters, the decoder refuses all but those that decode alike, which give the same bytes; over the alphabet it refuses every one. |
| CashAddrCodec.ShortNeverVerifies | chain/bitcoin_cash/address.go:167-178 | No string of fewer than eight symbols verifies on any known network, so cutting off the checksum cannot underflow. |
| CashAddrCodec.EncodeToBchString | chain/bitcoin_cash/address.go:287-294 | Every symbol becomes its letter of the alphabet, whose letters MainNetAddress and TestNetAddress fix. |
| CashAddrCodec.DecodeBchString | chain/bitcoin_cash/address.go:199-205 | Every character becomes its index in the alphabet, unknown characters become 0. |
| CashAddrCodec.DecodeEncodeSymbols | chain/bitcoin_cash/address.go:199-205 | Decoding inverts encoding for all symbols below 32, and no encoded string holds a colon. |
| CashAddrCodec.EncodeDecodeString | chain/bitcoin_cash/address.go:199-205 | Encoding inverts decoding exactly on strings over the alphabet. |
| CashAddrCodec.DecodeSame | chain/bitcoin_cash/address.go:199-205 | Two strings decode alike if and only if they differ at most where both hold a 'q' or a character outside the alphabet; over the alphabet, only if they are equal. |
| CashAddrCodec.UnknownReadsAsQ | chain/bitcoin_cash/address.go:199-205 | An input at which the string round trip fails: 'b' decodes like 'q'. |
| CashAddrCodec.DecodeEncode | chain/bitcoin_cash/address.go:154-197 | Decoding inverts encoding, with and without network prefix: a 20-byte hash comes back with version 0 or 8; all other encodable addresses are refused for the stated reason. |
| CashAddrExact.DecodeIsExact | chain/bitcoin_cash/address.go:154-197 | A string decodes to a version 0 or 8 and a 20-byte hash if and only if the part the decoder looks at differs from their encoding at most where both read as zero. |
| CashAddrExact.SecondPart | chain/bitcoin_cash/address.go:167-169 | Of a string with colons the decoder looks at what is between the first and the second. |
| CashAddrExact.EncodableLengths | chain/bitcoin_cash/address.go:271-285 | A hash is encodable if and only if the network is known and its length is 20 to 23 bytes plus four for each unit of the size code, with 17 to 19 bytes also let through under code zero. |
| CashAddrExact.LongHashesRefused | chain/bitcoin_cash/address.go:271-285 | Of the eight hash lengths in the table of the CashAddr specification, each under its own size code, exactly those up to 32 bytes are encoded. |
| CashAddrCodec.StandardAddressesEncode | chain/bitcoin_cash/address.go:271-285 | A 20-byte hash encodes if and only if the version's low three bits are zero and the network is known. |
| CashAddrCodec.AddressRoundTrip | chain/bitcoin_cash/address.go:114-131 | Both standard address kinds survive encoding, decoding and classification on every known network. |
| CashAddrPublished.MainNetAddress | normalize/normalize_test.go:163 | The main-net address published there, by its 20-byte hash: encoding gives it, and decoding it gives the hash back, with and without prefix. |
| CashAddrPublished.TestNetAddress | chain/bitcoin_cash/bitcoin_test.go:68 | The same for a test-net address; the two together hold all 32 letters. |
| Selection.LeadingIsHeaviest | chain/bitcoin/tx_input/tx_input.go:191-221 | Exchange: no selection of m items outweighs the m leading items of a descending list. |
| Selection.FirstPrefixIsLeast | chain/bitcoin/tx_input/tx_input.go:191-221 | The first prefix of a descending list to reach a target has the least size of all selections that reach it. |
| BitcoinInput.FilterForMinUtxoSet | chain/bitcoin/tx_input/tx_input.go:191-221 | Returns the max(k, min(minUtxo, n)) largest outputs, where k is the least number of outputs that reaches the target, or all of them; the input is only reordered. |
| BitcoinInput.SelectionReaches | chain/bitcoin/tx_input/tx_input.go:154-156 | If no output is negative and all together can pay the target, the kept ones can. |
| BitcoinInput.TxInput.SetAmount | chain/bitcoin/tx_input/tx_input.go:154-156 | The input keeps such a selection for the amount, with at least ten outputs where there are ten. |
| BitcoinInput.TxInput.SumUtxo | chain/bitcoin/tx_input/tx_input.go:174-180 | The total of the outputs' values. |
| BitcoinInput.FeeLimitIs | chain/bitcoin/tx_input/tx_input.go:129-152 | The fee is the flat one where it is set, else the price of the size, 255 bytes an output where nothing else is estimated, cut towards zero. |
| BitcoinInput.TxInput.IndependentOf | chain/bitcoin/tx_input/tx_input.go:100-114 | True if and only if the other input exposes UTXOs and shares no outpoint. |
| BitcoinInput.TxInput.SafeFromDoubleSend | chain/bitcoin/tx_input/tx_input.go:116-127 | True if and only if the other input exposes UTXOs and shares an outpoint. |
| BitcoinInput.MultiTransferInput.GetUtxo | chain/bitcoin/tx_input/tx_input_multi.go:111-125 | All outputs of all inputs, in order. |
| BitcoinInput.MultiTransferInput.SumUtxo | chain/bitcoin/tx_input/tx_input_multi.go:103-109 | The total over all inputs. |
| BitcoinInput.MultiTransferInput.IndependentOf | chain/bitcoin/tx_input/tx_input_multi.go:74-88 | Disjointness of outpoints over all inputs, against single and multi inputs alike. |
| BitcoinInput.MultiTransferInput.SafeFromDoubleSend | chain/bitcoin/tx_input/tx_input_multi.go:90-101 | A shared outpoint over all inputs, against single and multi inputs alike. |
| BitcoinBuilder.NewNativeTransfer | chain/bitcoin/builder/builder.go:61-129 | Builds exactly when every recipient is payable, the receiver being looked at before the sender. The first output pays the low 64 bits of the amount to the receiver's script, the second, unless it is zero, those of the change left after the fee to the sender's, and there is no other; it spends exactly the input's outputs. The outputs of what it returns add up to the spent value less the fee if and only if that is at least 0 and below 2^64. |
| BitcoinBuilder.WireInputsName | chain/bitcoin/builder/builder.go:89-93 | Every input names the output it spends by its index and by its hash in stored order, cut or filled with zeros to 32 bytes. |
| BitcoinBuilder.TransferPayable | chain/bitcoin/builder/builder.go:67-114 | With decodable addresses, building succeeds if and only if amount and change modulo 2^64 are both below 2^63; for amounts and change in signed 64 bits, if and only if neither is negative. |
| BitcoinBuilder.TransferConserves | chain/bitcoin/builder/builder.go:67-114 | For every transfer that is built, whatever the amount: the outputs add up to (spent - fee) modulo 2^64, so outputs plus fee equal the spent value if and only if 0 <= spent - fee < 2^64; the receiver gets the amount if and only if 0 <= amount < 2^63. |
| BitcoinBuilder.CutAmountIsPaid | chain/bitcoin/builder/builder.go:106-114 | An input at which the amount is cut: 2^64 + 50 asked of 100 with a fee of 10 is built although the change is negative, and pays 50 and 40. |
| BitcoinBuilder.SelectedTransferPays | chain/bitcoin/tx_input/tx_input.go:129-156 | After outputs are selected for the amount, with the fee limit of those that are kept: the change is not negative exactly when some choice of that many outputs pays the amount and the fee; building succeeds with no amount cut exactly when also 0 <= amount < 2^63 and no such choice leaves change of 2^63 or more; with at most ten outputs all are kept. |
| BitcoinBuilder.SelectionMayForgetFee | chain/bitcoin/tx_input/tx_input.go:154-156 | Eleven outputs of 10 pay 100 and a fee of 5, but the ten kept for 100 do not: the builder refuses. |
| BitcoinBuilder.Distribute | chain/bitcoin/builder/builder.go:155-190 | The loop over the inputs: spends exactly the outputs of spendable inputs, and its change and remainder are those of settling what is owed input by input. |
| BitcoinBuilder.ChangeIsOwn | chain/bitcoin/builder/builder.go:172-186 | Change in closed form: each input's own change in input order, at most one output each, to that input's address, of what it brought in less what the inputs before it left owed. |
| BitcoinBuilder.NobodyGains | chain/bitcoin/builder/builder.go:172-186 | No address gets back more than its inputs supplied; with nothing owed, every input gets back exactly what it supplied. |
| BitcoinBuilder.UnmetIsShortfall | chain/bitcoin/builder/builder.go:152-190 | What is left unpaid is exactly what the supplies fall short of, and no change is negative. |
| BitcoinBuilder.MultiTransfer | chain/bitcoin/builder/builder.go:131-227 | Builds exactly when every recipient is payable, the first that is not deciding the error; spends exactly the outputs of spendable inputs and pays the receivers, then each input's change, nothing else. |
| BitcoinBuilder.SpentMembers | chain/bitcoin/builder/builder.go:155-190 | An output is spent if and only if it is one of an input with an address that is among the spenders. |
| BitcoinBuilder.MultiRecipientsPay | chain/bitcoin/builder/builder.go:138-190 | The receivers come first and in order, and every other output pays the address of an input that is spent. |
| BitcoinBuilder.MultiTransferConserves | chain/bitcoin/builder/builder.go:138-190 | Outputs + fee = spent + max(0, transfers + fee - spent), so outputs + fee = spent if and only if transfers + fee <= spent. |
| BitcoinBuilder.MultiTransferMayOverspend | chain/bitcoin/builder/builder.go:152-197 | An input at which it fails: a receiver of 100 is paid from a single input of 10. |
| BitcoinBuilder.MultiTransferOnWire | chain/bitcoin/builder/builder.go:152-215 | On the wire: covered by its inputs, a built transaction conserves value if and only if no amount is cut to 64 bits; with no amount cut, if and only if its inputs cover it. |
| BitcoinBuilder.WireTotal | chain/bitcoin/builder/builder.go:198-215 | For recipients with amounts that are not negative: the wire outputs never carry more than their total, and exactly that if and only if every amount is below 2^63. |
| BitcoinBuilder.SpendsEverything | chain/bitcoin/builder/builder.go:155-197 | The transaction spends all of GetUtxo if and only if every input with outputs has a spender. |
| BitcoinLedger.ExclusionIsExact | chain/bitcoin/tx_input/tx_input_multi.go:90-101 | For any list of transactions, at most one lands in every run of the ledger, interleaved with any others, if and only if they pairwise share a spent outpoint or spend nothing. |
| BitcoinLedger.Attempt.SafeFromDoubleSend | chain/bitcoin/tx_input/tx_input.go:116-127 | The answer for single and multi attempts mixed: true exactly when the UTXOs they expose share an outpoint. |
| BitcoinLedger.Attempt.Build | chain/bitcoin/builder/builder.go:155-197 | The transaction an attempt's builder returns spends exactly the inputs the ledger theorems speak of. |
| BitcoinLedger.CoveredSpendsAll | chain/bitcoin/builder/builder.go:155-170 | A built transaction spends all of GetUtxo exactly when every input with outputs has a spender. |
| BitcoinLedger.SafeAttemptsExclude | chain/bitcoin/tx_input/tx_input_multi.go:90-101 | When each attempt is reported safe against all earlier ones and every input with outputs has a spender, at most one attempt's transaction ever lands. |
| BitcoinLedger.UncoveredAttemptsBothLand | chain/bitcoin/builder/builder.go:165-170 | Without a spender for every input it fails: two multi-transfers share an input nobody spends, are reported safe, and some run accepts both. |
| SuiInput.TxInput.ExcludeGasCoin | chain/sui/tx_input.go:141-149 | Drops the first coin that is the gas coin and changes nothing else. |
| SuiInput.ExcludeRemoves | chain/sui/tx_input.go:141-149 | With distinct ids the gas coin is gone, and excluding again changes nothing. |
| SuiInput.TxInput.TotalBalance | chain/sui/tx_input.go:151-166 | All coins, plus the gas coin when the last coin has its type or there is none. |
| SuiTransfer.NewTransactionBase | chain/sui/builder.go:90-115 | The input is left without its gas coin and with the three-way minimum as budget; it fails exactly when a native balance is below the amount, and has then still dropped the gas coin. |
| SuiExecution.BudgetBounds | chain/sui/builder.go:90-115 | The budget is the least of what was asked for, the gas coin and what a native transfer leaves: it exceeds none and equals one of them. |
| SuiExecution.MixedCoins | chain/sui/tx_input.go:151-177 | Of coins of several types the first decides whether a transfer is native, and the last whether the gas coin counts. |
| SuiTransfer.PrepareGasSplitAndMergeCommands | chain/sui/builder.go:157-233 | The emitted inputs, commands and primary coin for any coins and fee payer, with the merge cut-off. |
| SuiTransfer.NewTransfer | chain/sui/builder.go:236-294 | The whole transaction, or the error, and the state the input is left in: sender, fee payer, gas coin, price and epoch are those given, and only budget and coins of the input change. |
| SuiTransfer.RebuildIsSame | chain/sui/builder.go:90-115 | Building again from the already rewritten input gives the same transaction and changes nothing. |
| SuiTransfer.TransferWellFormed | chain/sui/builder.go:157-284 | Every positional reference of an emitted transfer is in range and refers only to earlier commands. |
| SuiProgram.ExecuteConserves | chain/sui/builder.go:261-284 | Executing any program, on any state, conserves the coins of every type: held, delivered and staked. |
| SuiExecution.GatherExecutes | chain/sui/builder.go:157-233 | The gathering commands always execute and put everything available into the primary coin. |
| SuiExecution.TransferExecutes | chain/sui/builder.go:261-284 | An emitted transfer executes if and only if what it gathers covers the amount; it then delivers exactly the amount and leaves the rest in the primary coin. |
| SuiExecution.TransferOutcome | chain/sui/builder.go:236-294 | For any fee payer, coin type and number of coins: built exactly when the balance check passes and there is a coin to split; executes exactly when what it gathers covers the amount, and then delivers exactly that. |
| SuiExecution.RequestedIsDelivered | chain/sui/builder.go:236-284 | For a requested amount that is any integer: what an executed transfer delivers is that amount if and only if it is at least 0 and below 2^64. |
| SuiExecution.NegativeAmountIsDelivered | chain/sui/builder.go:236-284 | An input at which it is not: -50 are asked of a gas coin of 100, and 50 are delivered. |
| SuiExecution.UngatheredCoins | chain/sui/builder.go:195-212 | A native transfer paying its own gas executes exactly when the coins beyond the merge cut-off hold no more than it leaves over. |
| SuiExecution.ManyCoinsMayAbort | chain/sui/builder.go:195-212 | Otherwise it aborts: 53 coins of 10 and a gas coin of 100, asked for 625, pass the check, but 615 are gathered. |
| SuiExecution.NativeTransferDelivers | chain/sui/builder.go:90-115 | With fee payer = sender and at most 52 coins: whenever the balance covers the amount, the transfer is built, executes, delivers exactly the amount and leaves the whole budget. |
| SuiExecution.SponsoredTransferMayAbort | chain/sui/tx_input.go:151-166 | With another fee payer a transfer can be built that aborts, since the balance check counts the gas coin: 50 asked of a coin of 10. |
| SuiStaking.Stake | chain/sui/builder_staking.go:36-127 | The whole staking transaction, or the error, and the state the input is left in: sender, fee payer, gas coin, price and epoch are those given, and only budget and coins of the input change. What it does when run is StakeOutcome. |
| SuiStaking.StakeWellFormed | chain/sui/builder_staking.go:79-120 | Every positional reference of an emitted stake is in range and refers only to earlier commands. |
| SuiStaking.StakeExecutes | chain/sui/builder_staking.go:79-120 | A stake executes if and only if what it gathers covers the amount; it then stakes exactly that amount with the validator. |
| SuiStaking.StakeOutcome | chain/sui/builder_staking.go:36-127 | What becomes of the transaction Stake returns, for any fee payer, coin type and number of coins: built exactly when the balance check passes and there is a coin to split; executes exactly when what it gathers covers the amount, and then stakes exactly that with the named validator and nothing else. |
| SuiStaking.RequestedIsStaked | chain/sui/builder_staking.go:79-120 | For a requested amount that is any integer: what is staked is that amount if and only if it is at least 0 and below 2^64. |
| SuiStaking.Unstake | chain/sui/builder_staking.go:129-288 | The whole unstaking transaction for any number of stakes, or the error of the first failing check, and the state the input is left in; the header as for Stake. What it does when run is UnstakeOutcome. |
| SuiStaking.UnstakeWellFormed | chain/sui/builder_staking.go:161-281 | Every positional reference of an emitted unstake is in range and refers only to earlier commands. |
| SuiStaking.UnstakeAllExecutes | chain/sui/builder_staking.go:161-215 | Without a split the program executes exactly when its positions fit 16 bits, and then withdraws exactly the listed stakes. |
| SuiStaking.UnstakeSplitExecutes | chain/sui/builder_staking.go:216-281 | With a split it executes exactly when its positions fit 16 bits and the split amount is within the principal; it withdraws the listed stakes and the remainder, and keeps the split amount staked. |
| SuiStaking.UnstakeOutcome | chain/sui/builder_staking.go:129-288 | What becomes of the transaction Unstake returns, for any stakes and filters: built exactly when the balance check passes, the stake to split matches validator and account or there is nothing to close or split, and a split amount is there and adds up; executes exactly when its positions fit 16 bits and the split is within the principal; withdraws the listed stakes and the rest of the split one, in order, keeps the split amount staked, and does nothing else. |
| SuiStaking.FiltersIgnoreClosedStakes | chain/sui/builder_staking.go:161-166 | Without a split, an unstake passes the filters exactly when there is nothing to close or the stake to split matches them; a matching stake to close is refused beside an empty one. |
| SuiStaking.SplitUnstakePays | chain/sui/builder_staking.go:216-233 | The principals a split unstake withdraws fall short of the amount asked for by exactly the rewards, and equal it only without rewards. |
| SuiStaking.SplitUnstakeMayFallShort | chain/sui/builder_staking.go:216-233 | An input at which they differ: of a stake of 10 with rewards of 2, 8 are asked for with 4 split off; it is accepted and withdraws 6. |
| SuiStaking.WholeUnstakeIgnoresAmount | chain/sui/builder_staking.go:161-216 | An unstake of whole stakes is the same for every amount, and withdraws their balances less their rewards. |
| SuiStaking.WholeUnstakeMayExceed | chain/sui/builder_staking.go:161-216 | Inputs with a wrong amount: with a gas coin of 100, any amount up to 95 is accepted for one stake of any principal, and the whole principal is withdrawn. |
| CantonHoldings.SelectGroup | chain/canton/client/command_builders.go:167-189 | The shortest nonempty prefix, by amount then contract id, that reaches the target, or nothing. |
| CantonHoldings.GroupIsOptimal | chain/canton/client/command_builders.go:167-189 | That selection has the fewest holdings of all that reach the target, and is empty if and only if none does. |
| CantonHoldings.GroupIsCanonical | chain/canton/client/command_builders.go:167-189 | With distinct contract ids it does not depend on the order of the group. |
| CantonHoldings.Classify | chain/canton/client/command_builders.go:116-134 | Splits the eligible holdings into the unlocked ones and, per lock key, the locked ones, in order. |
| CantonHoldings.EligibleLocksExpired | chain/canton/client/command_builders.go:215-227 | An eligible holding that is locked has an expiry that has passed. |
| CantonHoldings.EligibleIs | chain/canton/client/command_builders.go:148-165 | A holding is eligible if and only if its event is given, its view has the wanted owner, admin and instrument and a readable amount, which is what it is worth, and it is not locked or its expiry has passed. |
| CantonHoldings.EligibleCount | chain/canton/client/command_builders.go:148-165 | Each such event is eligible as often as it is given, and no other at all. |
| CantonHoldings.TokenTransferInputHoldings | chain/canton/client/command_builders.go:116-147 | The unlocked selection when there is one, else the smallest lock group's selection, the first in key order among equals. Every holding it returns is one of the events given, of the wanted owner, admin and instrument, worth what its view says, and not locked or with an expiry that has passed. |
| CantonHoldings.OutcomeIsOptimal | chain/canton/client/command_builders.go:135-147 | Nothing is chosen if and only if no unlocked holdings and no holdings sharing a lock can pay; otherwise a payment with the fewest holdings, unlocked whenever those can pay. |
| CantonHoldings.PaymentIs | chain/canton/client/command_builders.go:199-213 | Which holdings may pay together: those without a lock, or those whose locks serialize alike, where locks that cannot be read and locked templates without one share the empty key. |
| CantonHoldings.SelectedInOrder | chain/canton/client/command_builders.go:172-177 | A selection lists larger amounts first and equal ones by contract id, and all it passes over comes after them. |
| CantonHoldings.FirstLockWins | chain/canton/client/command_builders.go:135-147 | Of the locks that can pay with equally few holdings the first in key order is taken. |
| Ordering.StringLeqIs | chain/canton/client/command_builders.go:172-177 | The order of strings is that of the first character in which they differ, a prefix before what continues it. |
| CantonHoldings.OutcomeIsCanonical | chain/canton/client/command_builders.go:116-147 | With distinct contract ids the choice is the same for every order of the input. |
| CantonTopology.TransactionHashBinds | chain/canton/tx/topology_hash.go:17-22 | Transaction hashes are equal exactly for equal transactions and never equal a multi-hash, unless two different byte strings behind their purposes have one digest. |
| CantonTopology.TransactionHashIs | chain/canton/tx/topology_hash.go:54-64 | The two prefix bytes 0x12 0x20 and the digest of the purpose 11 in four bytes before the transaction. |
| CantonTopology.ComputeTopologyMultiHash | chain/canton/tx/topology_hash.go:24-52 | The prefixed digest of count and length-prefixed sorted hashes; errors exactly for no transactions or an empty one. |
| CantonTopology.MultiHashIs | chain/canton/tx/topology_hash.go:24-64 | For fewer than 256 transactions, byte by byte: the prefix and the digest of purpose 55, the count, and for each hash in increasing order its length 34 and the hash. |
| CantonTopology.BytesLeqIs | chain/canton/tx/topology_hash.go:38-40 | The order of hashes is that of the first byte in which they differ, the smaller byte first. |
| CantonTopology.FramedInjective | chain/canton/tx/topology_hash.go:42-49 | Length-prefixed concatenation of 34-byte hashes is injective, for any number of them. |
| CantonTopology.MultiHashIgnoresOrder | chain/canton/tx/topology_hash.go:24-52 | The multi-hash is the same for every order of the transactions. |
| CantonTopology.MultiHashBinds | chain/canton/tx/topology_hash.go:24-64 | Unless two byte strings that were hashed collide, equal multi-hashes mean equal multisets of transactions. |
| Movements.NetIsFlatSum | client/tx_info/tx_info.go:327-342 | The net of an asset over movements is what the changes in its movements add up to. |
| Movements.MergedIsFlat | client/tx_info/tx_info.go:422-431 | Merging a group collects every change exactly once, in order, if and only if wherever its first movement occurs again nothing has been merged into it yet; otherwise it collects strictly more. |
| Movements.RepeatedPointer | client/tx_info/tx_info.go:422-431 | The same movement twice is harmless; three times it counts four times, and meets that condition only if it holds nothing. |
| Movements.GroupByAsset | client/tx_info/tx_info.go:416-421 | The map holds, for exactly the assets that occur, their movements in order. |
| Movements.NetsBefore | client/tx_info/tx_info.go:415-435 | Each asset's net is that of its flat changes, and its group will collect exactly these if and only if the condition on repeated first movements holds. |
| Movements.NetsAfter | client/tx_info/tx_info.go:415-435 | One movement per asset has the nets of the changes it holds. |
| Movements.Coalesce | client/tx_info/tx_info.go:415-435 | One movement per asset in strictly increasing order, each the first of its asset; every change exactly once if and only if first movements repeat only where nothing has been merged, and then every net is as before; movements merged away keep their changes. |
| Ordering.LookupsDetermine | client/tx_info/tx_info.go:327-353 | Lookups determine a list with increasing keys. |
| Fees.CalculateFees | client/tx_info/tx_info.go:327-353 | Every asset whose net is not zero, with its net, in increasing order of assets, and nothing else. |
| Fees.FeesAreUnique | client/tx_info/tx_info.go:327-353 | Nets determine the fee list, so coalescing leaves the fees as they are. |
| LegacyInfo.TxInfo.AddSimpleTransfer | client/tx_info/tx_info.go:295-303 | Appends one movement in the contract's asset, the chain's own without one, with the balance debited to the sender and credited to the receiver; no net changes, so it never adds a fee. |
| LegacyInfo.TxInfo.AddFee | client/tx_info/tx_info.go:304-310 | Appends a movement with the fee debited to its payer and nothing credited; the net of its asset grows by the fee and no other net changes. |
| LegacyInfo.TxInfo.Coalesce | client/tx_info/tx_info.go:323-325 | Coalescing leaves every net, and so the fees, as they are, under that condition. |
| LegacyInfo.InferFeePayer | client/tx_info/tx_info.go:508-519 | The payer named, else the sender, else the last source in the transaction's contract or the native asset. |
| LegacyInfo.FeePayerIs | client/tx_info/tx_info.go:508-519 | A named payer wins over the sender and the sender over the sources, of which the last in the transaction's contract or the native asset counts; without any nobody pays. |
| LegacyInfo.MapUtxo | client/tx_info/tx_info.go:462-486 | One movement per asset in increasing order, holding exactly that asset's sources and destinations. |
| LegacyInfo.ChangesInIs | client/tx_info/tx_info.go:462-486 | The changes of an asset are, in order, amount and address of exactly the endpoints in it, where no contract means the chain's own asset. |
| LegacyInfo.MapAccount | client/tx_info/tx_info.go:488-505 | One movement per destination in order, in its contract's asset and with its contract id and memo, from the source beside it or the sender to its address; all nets are zero. |
| LegacyInfo.FromLegacy | client/tx_info/tx_info.go:442-523 | A fee that is not zero comes last, in its own movement, debited to its payer. Account mapping: the fees are exactly the legacy fee. UTXO mapping: what the sources move in an asset less what the destinations do, plus the fee in its asset, zero entries dropped, per asset. |
| ZcashTx.UnwrapInput | chain/zcash/tx.go:102-117 | An input is recovered from its bytes, whatever follows, by a reader told only how long the transaction id is. |
| ZcashTx.UnwrapOutput | chain/zcash/tx.go:53-65 | An output is recovered from its bytes, whatever follows: the amount as a signed 64-bit number and the script behind its CompactSize length. |
| ZcashTx.Serialize | chain/zcash/tx.go:80-176 | The v4 layout of section 7.1 of the Zcash Protocol Specification, without shielded parts; ParseIsExact fixes every byte. |
| ZcashTx.VarIntIsShortest | chain/zcash/tx.go:53-65 | A length takes one byte exactly below 253, three up to 65535, five up to 2^32 - 1, and nine beyond. |
| ZcashTx.ParseEncode | chain/zcash/tx.go:80-176 | A parser told the lengths of the transaction ids recovers every serialized field, for any number of inputs and outputs, whatever bytes follow. |
| ZcashTx.ParseIsExact | chain/zcash/tx.go:80-176 | Bytes parse if and only if they are the encoding of a transaction whose fields fit, followed by any rest: the parser refuses every length not in its shortest form. |
| ZcashTx.EncodingIsUnique | chain/zcash/tx.go:80-176 | Where one encoding is the other's beginning, the transactions are equal if and only if their ids are equally long, position by position. |
| ZcashTx.StandardIdsAreUnique | chain/zcash/tx.go:80-176 | With 32-byte ids one parser recovers every transaction, and the encoding is unique and prefix-free. |
| ZcashTx.ShortIdsAreAmbiguous | chain/zcash/tx.go:41-46 | Ids of unequal lengths are confused: two different transactions have one encoding. |
| TronVotes.ReduceTotalVoteCount | chain/tron/builder.go:381-405 | Takes votes back smallest first, in place; fails if and only if there are fewer than requested. |
| TronVotes.ReducedTotal | chain/tron/builder.go:386-398 | The total falls by exactly the requested amount, or to zero when there is less. |
| TronVotes.ReducedNeverRaises | chain/tron/builder.go:386-398 | No vote is raised. |
| TronVotes.ReducedZeroesMost | chain/tron/builder.go:381-405 | No way of taking back no more votes without raising any leaves more validators without votes. |
| TronUnstake.DetermineUnstakeVoteAction | chain/tron/builder.go:415-467 | The decision or error for every input, with 64-bit wrap-around of both the sum and the difference. |
| TronUnstake.OvercastWraps | chain/tron/builder.go:448-467 | The unused votes are the difference, or, with more votes cast than are frozen, 2^64 less what is too much. |
| TronUnstake.NewVotes | chain/tron/builder.go:255-297 | The votes that are not empty, in order; no transaction when none is left. |
| TronUnstake.ListedTotal | chain/tron/builder.go:266-282 | The listed votes are never more than the votes, and all of them if and only if every count fits a signed 64-bit number. |
| TronUnstake.ListedAt | chain/tron/builder.go:266-282 | Each vote that is not empty is listed with its address and its count as a signed word, in the place that is left when the empty ones before it are skipped. |
| TronUnstake.UnstakeVotes | chain/tron/builder.go:469-523 | The vote transaction or error and the votes left, for every input: for a named validator the votes as they were, which is the list with that validator's count lowered if and only if nothing is unstaked; otherwise no transaction, or the smallest votes taken back and the rest listed, with 64-bit wrap-around. |
| TronUnstake.LoweringShows | chain/tron/builder.go:498-507 | A vote transaction with one validator's count lowered differs from the one without if and only if something is taken off, including where the count drops to zero and is no longer listed. |
| TronUnstake.NamedVotesStayCast | chain/tron/builder.go:498-507 | For a named validator that succeeds: votes cast plus the unstaked amount are within the frozen votes if and only if the unused votes cover that amount; with the count lowered they always would be. |
| TronUnstake.NamedUnstakeRepeatsVotes | chain/tron/builder.go:498-507 | An input at which it fails: with all of 10 frozen votes cast for a validator, unstaking 4 from it returns a vote transaction of 10. |
| TronUnstake.UnstakeSucceeds | chain/tron/builder.go:452-463 | For no particular validator, with votes backed by the frozen balance: succeeds exactly when the unused votes alone, or with a vote input the used ones alone, cover the amount; afterwards votes cast plus the unstaked amount never exceed the frozen ones. For a named validator see NamedVotesStayCast. |
| TronUnstake.UnstakeMayBeRefused | chain/tron/builder.go:452-463 | Unstaking 8 of 10 frozen votes, 3 of them cast, returns an error although 7 are free and 1 could be taken back. |
| TronTx.NewTx | chain/tron/tx.go:26-49 | Fails exactly for no transactions; otherwise holds them in order with their hashes and open lengths. |
| TronTx.Tx.SetSignatures | chain/tron/tx.go:90-104 | Refuses a wrong count and changes nothing then; succeeds exactly when every signed transaction encodes, with the lengths recorded; otherwise stops at the first that does not, which keeps its signature, those before it done and those after untouched. |
| TronTx.Tx.Serialize | chain/tron/tx.go:111-127 | The concatenation of all encodings; errors exactly for no transactions or one that does not encode. |
| TronTx.SplitConcat | chain/tron/tx.go:111-127 | Splitting at the parts' lengths inverts concatenation, for any number of parts. |
| TronTx.Tx.SplitsAtRecordedLengths | chain/tron/tx.go:90-127 | A signed transaction's bytes fall apart at the recorded lengths into exactly the signed encodings. |
| TronSubmit.Client.SubmitTx | chain/tron/client.go:310-382 | What is looked up, what is sent and what is returned, for every kind of metadata and every answer: the first piece where the first transaction is not found, the rest where it is there without error, and nothing otherwise. |
| TronSubmit.StepIsSafe | chain/tron/client.go:341-378 | Every step of any call, and of the chain, keeps the protocol's invariant, also where a look-up wrongly finds nothing. |
| TronSubmit.AlwaysSafe | chain/tron/client.go:341-378 | In every interleaving of calls and chain steps, with look-ups that fail or miss what is on chain, only the two pieces are sent, the second only after the first is on chain without error, and the chain has them in that order. |
| TronSubmit.FailureBlocksSecond | chain/tron/client.go:370-377 | Once the first transaction has failed on chain the second is never sent and never on chain. |
| TronSubmit.TwoCallsSuffice | chain/tron/client.go:341-378 | From the start some run of two calls sends exactly the first, then the second. |
| TronSubmit.PiecesAreEncodings | chain/tron/client.go:353-373 | The two pieces are exactly the signed encodings of the two transactions. |

## Left out
- Network clients, retries, logging and configuration: input and output without an algorithm; `SubmitTx` is modelled against an abstract chain.
- Cryptographic primitives and curve operations: uninterpreted functions and an abstract group; the digest is the argument of `Blake2bScalarReduce`.
- The legacy branch of Bitcoin Cash address decoding, Base58, segwit and hex parsing: library code; an address decodes or does not.
- `fiatScMontCmovznzU64` on integers: the selection is proved on 64-bit vectors and used as a choice on integer words, since Dafny cannot relate the two types.
- `sort.Slice`: modelled by what it promises, an ordered permutation with no word about ties, and not by its algorithm.
- Fee estimates from floating-point or decimal factors, gas price multipliers and the unconfirmed-output heuristic: they depend on library rounding; the Bitcoin fee uses exact reals, cut to an integer.
- Bitcoin `SetGasFeePriority`, `HasSameUtxoAs` and the signing of transactions: they would add only easy members.
- The text of errors.
- Sui `SortCoins`, `coinsDisjoint`, `SetGasFeePriority` and the minimum-stake rule of the chain; the interpreter of Sui commands states the chain's documented meaning, and gas is withheld, not metered.
- Sui object versions, digests and the byte encoding of transactions: the references by position and id are what is modelled.
- Canton: reading views, expiry times and locks out of records is given as fields of the event; the command builders and ledger calls are not modelled.
- TronSubmit.AlwaysSafe: the chain never drops a transaction again.
- Tron: converting between TRX and votes, decoding vote addresses and the freeze side of `Stake`.
- Transaction information: event details, address normalization, asset names, stake events and deprecated fields.
- Tron transactions whose metadata does not match their number: all transactions come from `NewTx`.
- Zcash `Build`, `Sighashes` and `Hash`: they rest on BLAKE2b and script code outside the model; the serializers they share are modelled.
