/** A UTXO ledger as a state machine, and why conflicting attempts cannot both land. */
module BitcoinLedger {
  import opened Wrappers
  import opened Bytes
  import opened BitcoinInput
  import opened BitcoinBuilder

  /** Every outpoint ever created, those spent, and the inputs of each accepted transaction in order. */
  datatype Ledger = Ledger(created: set<WireOutpoint>, spent: set<WireOutpoint>, accepted: seq<seq<WireOutpoint>>)

  ghost predicate Init(l: Ledger) {
    l.accepted == []
  }

  /** A transaction is accepted when its inputs are unspent outputs; the outputs it creates are new. */
  ghost predicate Accept(l: Ledger, txIn: seq<WireOutpoint>, outputs: set<WireOutpoint>, l': Ledger) {
    && txIn != []
    && (forall o :: o in txIn ==> o in l.created && o !in l.spent)
    && outputs !! l.created
    && l' == Ledger(l.created + outputs, l.spent + (set o | o in txIn), l.accepted + [txIn])
  }

  /** Any transaction, whoever made it, may be accepted in a step. */
  ghost predicate Next(l: Ledger, l': Ledger) {
    exists txIn, outputs :: Accept(l, txIn, outputs, l')
  }

  ghost predicate Run(run: seq<Ledger>) {
    && run != []
    && Init(run[0])
    && forall i :: 0 <= i < |run| - 1 ==> Next(run[i], run[i + 1])
  }

  ghost predicate SpentOnce(l: Ledger) {
    && (forall s, o :: 0 <= s < |l.accepted| && o in l.accepted[s] ==> o in l.spent)
    && (forall s :: 0 <= s < |l.accepted| ==> l.accepted[s] != [])
    && (forall s, t, o :: 0 <= s < t < |l.accepted| && o in l.accepted[s] ==> o !in l.accepted[t])
  }

  lemma StepKeepsSpentOnce(l: Ledger, l': Ledger)
    requires SpentOnce(l) && Next(l, l')
    ensures SpentOnce(l')
  {
    var txIn, outputs :| Accept(l, txIn, outputs, l');
    forall s, t, o | 0 <= s < t < |l'.accepted| && o in l'.accepted[s]
      ensures o !in l'.accepted[t]
    {
      if t == |l.accepted| {
        assert l'.accepted[t] == txIn && o in l.spent;
      }
    }
  }

  /** In every reachable ledger no outpoint is spent by two accepted transactions. */
  lemma {:induction false} ReachableSpendsOnce(run: seq<Ledger>)
    requires Run(run)
    ensures SpentOnce(run[|run| - 1])
  {
    if |run| > 1 {
      var earlier := run[..|run| - 1];
      ReachableSpendsOnce(earlier);
      StepKeepsSpentOnce(run[|run| - 2], run[|run| - 1]);
    }
  }

  // ----- which transactions exclude each other

  /** The transaction is accepted at this place of the run's last ledger. */
  ghost predicate Lands(run: seq<Ledger>, at: nat, txIn: seq<WireOutpoint>)
    requires Run(run)
  {
    at < |run[|run| - 1].accepted| && run[|run| - 1].accepted[at] == txIn
  }

  /** In every run, whatever else is accepted, at most one place holds one of these transactions. */
  ghost predicate AtMostOneLands(txs: seq<seq<WireOutpoint>>) {
    forall run, at, at', i, j :: LandsTwice(run, at, at', txs, i, j) ==> at == at'
  }

  ghost predicate LandsTwice(run: seq<Ledger>, at: nat, at': nat, txs: seq<seq<WireOutpoint>>, i: nat, j: nat) {
    i < |txs| && j < |txs| && Run(run) && Lands(run, at, txs[i]) && Lands(run, at', txs[j])
  }

  /** They share an outpoint, or one of them spends nothing and is never accepted. */
  ghost predicate Exclude(a: seq<WireOutpoint>, b: seq<WireOutpoint>) {
    a == [] || b == [] || exists o :: o in a && o in b
  }

  /** At most one of a list of transactions lands, in every run, if and only if they pairwise exclude each other. */
  lemma ExclusionIsExact(txs: seq<seq<WireOutpoint>>)
    ensures AtMostOneLands(txs) <==> forall i, j :: 0 <= i < j < |txs| ==> Exclude(txs[i], txs[j])
  {
    if forall i, j :: 0 <= i < j < |txs| ==> Exclude(txs[i], txs[j]) {
      forall run, at, at', i, j | LandsTwice(run, at, at', txs, i, j)
        ensures at == at'
      {
        SamePlace(run, at, at', txs, i, j);
      }
    }
    forall i, j | 0 <= i < j < |txs| && !Exclude(txs[i], txs[j])
      ensures !AtMostOneLands(txs)
    {
      var run := BothLand(txs[i], txs[j]);
      assert LandsTwice(run, 0, 1, txs, i, j);
    }
  }

  lemma SamePlace(run: seq<Ledger>, at: nat, at': nat, txs: seq<seq<WireOutpoint>>, i: nat, j: nat)
    requires forall i, j :: 0 <= i < j < |txs| ==> Exclude(txs[i], txs[j])
    requires LandsTwice(run, at, at', txs, i, j)
    ensures at == at'
  {
    var l := run[|run| - 1];
    ReachableSpendsOnce(run);
    if i == j {
      SameOutpointSameSlot(l, at, at', l.accepted[at][0]);
    } else {
      var first, second := if i < j then i else j, if i < j then j else i;
      assert Exclude(txs[first], txs[second]);
      var o :| o in txs[i] && o in txs[j];
      SameOutpointSameSlot(l, at, at', o);
    }
  }

  lemma SameOutpointSameSlot(l: Ledger, s: nat, t: nat, o: WireOutpoint)
    requires SpentOnce(l) && s < |l.accepted| && t < |l.accepted|
    requires o in l.accepted[s] && o in l.accepted[t]
    ensures s == t
  {
    assert !(s < t) && !(t < s);
  }

  /** Two transactions that do not exclude each other are both accepted in some run. */
  lemma BothLand(ia: seq<WireOutpoint>, ib: seq<WireOutpoint>) returns (run: seq<Ledger>)
    requires !Exclude(ia, ib)
    ensures Run(run) && Lands(run, 0, ia) && Lands(run, 1, ib)
  {
    var l0 := Ledger((set o | o in ia) + (set o | o in ib), {}, []);
    var l1 := Ledger(l0.created + {}, l0.spent + (set o | o in ia), l0.accepted + [ia]);
    var l2 := Ledger(l1.created + {}, l1.spent + (set o | o in ib), l1.accepted + [ib]);
    assert Accept(l0, ia, {}, l1);
    assert Accept(l1, ib, {}, l2);
    run := [l0, l1, l2];
  }

  // ----- attempts, as the library makes and compares them

  /** A transfer from one input, or a multi-transfer with its spenders. */
  datatype Attempt = Single(input: TxInput) | Multi(multi: MultiTransferInput, spenders: seq<string>) {
    /** The input as the other attempt's conflict check sees it. */
    function AsOther(): AnyInput {
      match this
      case Single(input) => SingleInput(input)
      case Multi(multi, _) => MultiInput(multi)
    }

    /** The inputs of the transaction its builder returns. */
    ghost function TxIn(): seq<WireOutpoint>
      reads if Single? then {input as object} else {multi}, if Multi? then multi.inputs else []
    {
      match this
      case Single(input) => WireInputs(input.unspentOutputs)
      case Multi(multi, spenders) => WireInputs(Spent(multi.inputs, spenders))
    }

    /** Every input that has outputs has a spender. */
    ghost predicate Covered()
      reads if Single? then {} else {multi as object}, if Multi? then multi.inputs else []
    {
      Single? || forall i :: 0 <= i < |multi.inputs| && multi.inputs[i].unspentOutputs != [] ==>
                   Spendable(multi.inputs[i], spenders)
    }

    /** What the later attempt's SafeFromDoubleSend answers about an earlier one. */
    method SafeFromDoubleSend(earlier: Attempt) returns (safe: bool)
      ensures safe <==> ReportsSafe(this, earlier)
    {
      match this
      case Single(input) => safe := input.SafeFromDoubleSend(earlier.AsOther());
      case Multi(multi, _) => safe := multi.SafeFromDoubleSend(earlier.AsOther());
    }

    /** Builds the attempt's transaction: one recipient for a single input, any number for several. */
    method Build(from: string, receivers: seq<Recipient>, scriptOf: string -> Option<seq<byte>>)
      returns (r: Result<Tx, BuildError>)
      requires Single? ==> |receivers| == 1
      ensures r.Ok? ==> r.value.txIn == TxIn()
    {
      match this
      case Single(input) => r := NewNativeTransfer(from, receivers[0].to, receivers[0].value, input, scriptOf);
      case Multi(multi, spenders) => r := MultiTransfer(receivers, spenders, multi, scriptOf);
    }
  }

  ghost predicate ReportsSafe(later: Attempt, earlier: Attempt)
    reads if later.Single? then {later.input as object} else {later.multi}, if later.Multi? then later.multi.inputs else []
    reads if earlier.Single? then {earlier.input as object} else {earlier.multi}, if earlier.Multi? then earlier.multi.inputs else []
  {
    !(Outpoints(later.AsOther().Utxo()) !! Outpoints(earlier.AsOther().Utxo()))
  }

  lemma CoveredSpendsAll(a: Attempt)
    ensures a.Covered() <==> a.TxIn() == WireInputs(a.AsOther().Utxo())
  {
    if a.Multi? {
      SpendsEverything(a.multi.inputs, a.spenders);
    }
  }

  /** A shared outpoint stays shared on the wire, also when hashes are cut or padded to 32 bytes. */
  lemma SharedOnWire(ours: seq<Output>, theirs: seq<Output>) returns (o: WireOutpoint)
    requires !(Outpoints(ours) !! Outpoints(theirs))
    ensures o in WireInputs(ours) && o in WireInputs(theirs)
  {
    var p :| p in Outpoints(ours) && p in Outpoints(theirs);
    var i :| 0 <= i < |ours| && ours[i].outpoint == p;
    var j :| 0 <= j < |theirs| && theirs[j].outpoint == p;
    o := ToWire(p);
    assert WireInputs(ours)[i] == o && WireInputs(theirs)[j] == o;
  }

  /**
   * Single and multi attempts mixed: when each attempt is reported safe against all earlier ones and every
   * multi-transfer has a spender for each of its inputs with outputs, at most one transaction ever lands.
   */
  lemma SafeAttemptsExclude(attempts: seq<Attempt>, txs: seq<seq<WireOutpoint>>)
    requires |txs| == |attempts| && forall i :: 0 <= i < |attempts| ==> txs[i] == attempts[i].TxIn()
    requires forall i, j :: 0 <= i < j < |attempts| ==> ReportsSafe(attempts[j], attempts[i])
    requires forall i :: 0 <= i < |attempts| ==> attempts[i].Covered()
    ensures AtMostOneLands(txs)
  {
    forall i, j | 0 <= i < j < |txs|
      ensures Exclude(txs[i], txs[j])
    {
      CoveredSpendsAll(attempts[i]);
      CoveredSpendsAll(attempts[j]);
      var o := SharedOnWire(attempts[j].AsOther().Utxo(), attempts[i].AsOther().Utxo());
    }
    ExclusionIsExact(txs);
  }

  /**
   * A spender for each input is needed: two multi-transfers share an input nobody spends, are reported safe,
   * and both land.
   */
  method UncoveredAttemptsBothLand() returns (a: Attempt, b: Attempt, safe: bool, ghost run: seq<Ledger>)
    ensures safe && ReportsSafe(b, a) && !a.Covered() && !b.Covered()
    ensures Run(run) && Lands(run, 0, a.TxIn()) && Lands(run, 1, b.TxIn())
  {
    hide *;
    var zero := seq(32, _ => 0);
    var shared := Output(Outpoint(zero, 0), 1, [], "");
    var first, second := Output(Outpoint(zero, 1), 1, [], ""), Output(Outpoint(zero, 2), 1, [], "");
    var x := new TxInput("x", [first], 0, 0.0, 0);
    var y := new TxInput("y", [second], 0, 0.0, 0);
    var z := new TxInput("z", [shared], 0, 0.0, 0);
    var ma := new MultiTransferInput([x, z], 0);
    var mb := new MultiTransferInput([y, z], 0);
    a, b := Multi(ma, ["x"]), Multi(mb, ["y"]);
    Unspent(ma, x, z, first, shared);
    Unspent(mb, y, z, second, shared);
    SharedIsReported(b, a, shared.outpoint);
    safe := b.SafeFromDoubleSend(a);
    DifferentIndices(first.outpoint, second.outpoint);
    run := BothLand([ToWire(first.outpoint)], [ToWire(second.outpoint)]);
  }

  lemma SharedIsReported(later: Attempt, earlier: Attempt, o: Outpoint)
    requires o in Outpoints(later.AsOther().Utxo()) && o in Outpoints(earlier.AsOther().Utxo())
    ensures ReportsSafe(later, earlier)
  {
  }

  lemma DifferentIndices(p: Outpoint, q: Outpoint)
    requires p.index != q.index
    ensures !Exclude([ToWire(p)], [ToWire(q)])
  {
  }

  /** With a spender for the first of two inputs only, the second one's output is reported but not spent. */
  lemma Unspent(multi: MultiTransferInput, x: TxInput, z: TxInput, own: Output, shared: Output)
    requires multi.inputs == [x, z] && x.address != "" && z.address != x.address
    requires x.unspentOutputs == [own] && z.unspentOutputs == [shared]
    ensures var a := Multi(multi, [x.address]);
            && !a.Covered() && a.TxIn() == [ToWire(own.outpoint)]
            && shared.outpoint in Outpoints(a.AsOther().Utxo())
  {
    assert multi.inputs[1].unspentOutputs != [] && !Spendable(multi.inputs[1], [x.address]);
    var tail := [z];
    assert [x, z][1..] == tail && tail[1..] == [];
    assert Spendable(x, [x.address]);
    assert Spent(tail, [x.address]) == [] + Spent([], [x.address]);
    assert Spent([x, z], [x.address]) == Marked(x.unspentOutputs, x.address) + Spent(tail, [x.address]);
    assert AllUtxo(tail) == [shared] + AllUtxo([]);
    assert AllUtxo([x, z]) == [own] + AllUtxo(tail);
    assert shared in AllUtxo([x, z]);
  }
}
