/** Submitting two Tron transactions, one retry at a time, against a chain that moves on its own. */
module TronSubmit {
  import opened Wrappers
  import opened Bytes
  import opened TronTx

  // ----- one call

  /** What looking the first transaction up yields; a found transaction has an error message or none (""). */
  datatype Fetched = NotFound | FetchFailed | Found(error: string)

  datatype SubmitError =
    SerializeFailed | MalformedMetadata | BroadcastFailed | RequiredResubmission | FetchError | OnChainError
  | TooManyTransactions

  datatype Metadata = Absent | Malformed | Transactions(txs: seq<TxMetadata>)

  datatype Request = Request(bytes: Option<Encoding>, metadata: Metadata)

  /** What a call that looked the first transaction up sends, if anything. */
  function Piece(bytes: Encoding, length: nat, fetched: Fetched): Option<Encoding>
    requires length <= |bytes|
  {
    match fetched
    case NotFound => Some(bytes[..length])
    case Found(error) => if error == "" then Some(bytes[length..]) else None
    case FetchFailed => None
  }

  /** Nothing is sent on a look-up that fails or that finds the first transaction failed. */
  lemma PieceIs(bytes: Encoding, length: nat, fetched: Fetched)
    requires length <= |bytes|
    ensures fetched == NotFound ==> Piece(bytes, length, fetched) == Some(bytes[..length])
    ensures fetched == Found("") ==> Piece(bytes, length, fetched) == Some(bytes[length..])
    ensures fetched != NotFound && fetched != Found("") ==> Piece(bytes, length, fetched) == None
  {
  }

  /** The node as one call sees it: the answers it will give, and what it has been sent. */
  class Client {
    const fetched: Fetched
    const accepts: bool
    var asked: seq<string>
    var sent: seq<Encoding>

    constructor (fetched: Fetched, accepts: bool)
      ensures this.fetched == fetched && this.accepts == accepts && asked == [] && sent == []
    {
      this.fetched, this.accepts, asked, sent := fetched, accepts, [], [];
    }

    method FetchTxInfo(hash: string) returns (r: Fetched)
      modifies this`asked
      ensures r == fetched && asked == old(asked) + [hash]
    {
      asked := asked + [hash];
      r := fetched;
    }

    method BroadcastHex(bytes: Encoding) returns (r: Result<(), SubmitError>)
      modifies this`sent
      ensures sent == old(sent) + [bytes]
      ensures r == if accepts then Ok(()) else Err(BroadcastFailed)
    {
      sent := sent + [bytes];
      r := if accepts then Ok(()) else Err(BroadcastFailed);
    }

    /** A recorded length beyond the bytes makes the code fail where it slices. */
    method SubmitTx(request: Request) returns (r: Result<(), SubmitError>)
      requires request.metadata.Transactions? && |request.metadata.txs| == 2 && request.bytes.Some? ==>
                 request.metadata.txs[0].length <= |request.bytes.value|
      modifies this
      ensures var metadata := request.metadata;
              if metadata.Absent? || (metadata.Transactions? && |metadata.txs| == 1) then
                && asked == old(asked)
                && sent == old(sent) + (if request.bytes.Some? then [request.bytes.value] else [])
                && r == if request.bytes.None? then Err(SerializeFailed)
                        else if accepts then Ok(()) else Err(BroadcastFailed)
              else if metadata.Malformed? || |metadata.txs| != 2 || request.bytes.None? then
                && asked == old(asked) && sent == old(sent)
                && r == Err(if metadata.Malformed? then MalformedMetadata
                            else if |metadata.txs| != 2 then TooManyTransactions else SerializeFailed)
              else
                var bytes, length := request.bytes.value, metadata.txs[0].length;
                && asked == old(asked) + [metadata.txs[0].hash]
                && sent == old(sent) + (match fetched
                                        case NotFound => [bytes[..length]]
                                        case FetchFailed => []
                                        case Found(error) => if error == "" then [bytes[length..]] else [])
                && r == match fetched
                        case NotFound => Err(if accepts then RequiredResubmission else BroadcastFailed)
                        case FetchFailed => Err(FetchError)
                        case Found(error) =>
                          if error != "" then Err(OnChainError)
                          else if accepts then Ok(()) else Err(BroadcastFailed)
    {
      if request.metadata.Absent? {
        if request.bytes.None? {
          return Err(SerializeFailed);
        }
        r := BroadcastHex(request.bytes.value);
        return;
      }
      if request.metadata.Malformed? {
        return Err(MalformedMetadata);
      }
      var txs := request.metadata.txs;
      if |txs| == 1 {
        if request.bytes.None? {
          return Err(SerializeFailed);
        }
        r := BroadcastHex(request.bytes.value);
        return;
      } else if |txs| == 2 {
        if request.bytes.None? {
          return Err(SerializeFailed);
        }
        var txbytes := request.bytes.value;
        var meta := txs[0];
        var info := FetchTxInfo(meta.hash);
        if info.NotFound? {
          var first := BroadcastHex(txbytes[..meta.length]);
          return if first.Err? then first else Err(RequiredResubmission);
        }
        if info.FetchFailed? {
          return Err(FetchError);
        }
        if info.error == "" {
          r := BroadcastHex(txbytes[meta.length..]);
          return;
        }
        return Err(OnChainError);
      }
      return Err(TooManyTransactions);
    }
  }

  // ----- many calls and a chain

  /** The two transactions as submitted: their bytes together, the first one's length, and both hashes. */
  datatype Pair = Pair(bytes: Encoding, length: nat, firstHash: string, secondHash: string) {
    ghost predicate Valid() {
      length <= |bytes| && firstHash != secondHash && First() != Second()
    }

    function First(): Encoding
      requires length <= |bytes|
    {
      bytes[..length]
    }

    function Second(): Encoding
      requires length <= |bytes|
    {
      bytes[length..]
    }
  }

  /** A call that has looked the first transaction up and is about to send. */
  datatype Call = Looking | Sending(piece: Encoding) | Returned

  datatype Entry = Entry(hash: string, error: string)

  datatype State = State(chain: seq<Entry>, sent: seq<Encoding>, calls: map<nat, Call>)

  datatype Event =
    | Begin(call: nat)
    | Fetch(call: nat, fetched: Fetched)
    | Send(call: nat)
    | Include(bytes: Encoding, error: string)
    | Other(entry: Entry)

  predicate OnChain(chain: seq<Entry>, hash: string) {
    exists i :: 0 <= i < |chain| && chain[i].hash == hash
  }

  /** What a look-up finds is on the chain; it may fail, and may lag behind and miss what is there. */
  predicate Answers(chain: seq<Entry>, hash: string, fetched: Fetched) {
    fetched.Found? ==> Entry(hash, fetched.error) in chain
  }

  function HashOf(p: Pair, bytes: Encoding): string
    requires p.Valid()
  {
    if bytes == p.First() then p.firstHash else p.secondHash
  }

  /** The chain takes up only what was sent, each transaction once; other transactions come and go unasked. */
  ghost predicate Enabled(p: Pair, s: State, e: Event)
    requires p.Valid()
  {
    match e
    case Begin(call) => call !in s.calls
    case Fetch(call, fetched) =>
      call in s.calls && s.calls[call] == Looking && Answers(s.chain, p.firstHash, fetched)
    case Send(call) => call in s.calls && s.calls[call].Sending?
    case Include(bytes, error) =>
      bytes in s.sent && (bytes == p.First() || bytes == p.Second()) && !OnChain(s.chain, HashOf(p, bytes))
    case Other(entry) => entry.hash != p.firstHash && entry.hash != p.secondHash && !OnChain(s.chain, entry.hash)
  }

  function Next(p: Pair, s: State, e: Event): State
    requires p.Valid() && Enabled(p, s, e)
  {
    match e
    case Begin(call) => s.(calls := s.calls[call := Looking])
    case Fetch(call, fetched) =>
      var piece := Piece(p.bytes, p.length, fetched);
      s.(calls := s.calls[call := if piece.Some? then Sending(piece.value) else Returned])
    case Send(call) => s.(sent := s.sent + [s.calls[call].piece], calls := s.calls[call := Returned])
    case Include(bytes, error) => s.(chain := s.chain + [Entry(HashOf(p, bytes), error)])
    case Other(entry) => s.(chain := s.chain + [entry])
  }

  ghost predicate Runs(p: Pair, s: State, events: seq<Event>)
    requires p.Valid()
    decreases |events|
  {
    events == [] || (Enabled(p, s, events[0]) && Runs(p, Next(p, s, events[0]), events[1..]))
  }

  ghost function After(p: Pair, s: State, events: seq<Event>): State
    requires p.Valid() && Runs(p, s, events)
    decreases |events|
  {
    if events == [] then s else After(p, Next(p, s, events[0]), events[1..])
  }

  /** Nothing sent, nobody calling, neither of the two on the chain. */
  ghost predicate Initial(p: Pair, s: State) {
    s.sent == [] && s.calls == map[] && NoRepeats(s.chain) && !OnChain(s.chain, p.firstHash) && !OnChain(s.chain, p.secondHash)
  }

  ghost predicate NoRepeats(chain: seq<Entry>) {
    forall i, j :: 0 <= i < j < |chain| ==> chain[i].hash != chain[j].hash
  }

  // ----- safety

  /** The first transaction is on the chain without error. */
  predicate FirstSucceeded(p: Pair, chain: seq<Entry>) {
    Entry(p.firstHash, "") in chain
  }

  /** Bytes that may be sent while the chain is as it is. */
  ghost predicate MaySend(p: Pair, chain: seq<Entry>, bytes: Encoding)
    requires p.Valid()
  {
    bytes == p.First() || (bytes == p.Second() && FirstSucceeded(p, chain))
  }

  /** Wherever the second transaction stands on the chain, the first one succeeded before it. */
  ghost predicate InOrder(p: Pair, chain: seq<Entry>) {
    forall i :: 0 <= i < |chain| && chain[i].hash == p.secondHash ==> FirstSucceeded(p, chain[..i])
  }

  ghost predicate Safe(p: Pair, s: State)
    requires p.Valid()
  {
    && NoRepeats(s.chain)
    && InOrder(p, s.chain)
    && (forall bytes :: bytes in s.sent ==> MaySend(p, s.chain, bytes))
    && forall call :: call in s.calls && s.calls[call].Sending? ==> MaySend(p, s.chain, s.calls[call].piece)
  }

  lemma StepIsSafe(p: Pair, s: State, e: Event)
    requires p.Valid() && Safe(p, s) && Enabled(p, s, e)
    ensures Safe(p, Next(p, s, e))
  {
    var t := Next(p, s, e);
    match e {
      case Include(bytes, error) => {
        ExtendChain(p, s.chain, Entry(HashOf(p, bytes), error));
      }
      case Other(entry) => {
        ExtendChain(p, s.chain, entry);
      }
      case _ => {
      }
    }
  }

  lemma ExtendChain(p: Pair, chain: seq<Entry>, entry: Entry)
    requires p.Valid() && NoRepeats(chain) && InOrder(p, chain) && !OnChain(chain, entry.hash)
    requires entry.hash == p.secondHash ==> FirstSucceeded(p, chain)
    ensures NoRepeats(chain + [entry]) && InOrder(p, chain + [entry])
    ensures FirstSucceeded(p, chain) ==> FirstSucceeded(p, chain + [entry])
  {
    var longer := chain + [entry];
    forall i | 0 <= i < |longer| && longer[i].hash == p.secondHash
      ensures FirstSucceeded(p, longer[..i])
    {
      assert longer[..i] == chain[..i];
      assert chain[..|chain|] == chain;
    }
  }

  /** In every interleaving of calls and chain steps, the second transaction waits for the first to succeed. */
  lemma {:induction false} AlwaysSafe(p: Pair, s: State, events: seq<Event>)
    requires p.Valid() && Safe(p, s) && Runs(p, s, events)
    ensures Safe(p, After(p, s, events))
    decreases |events|
  {
    if events != [] {
      StepIsSafe(p, s, events[0]);
      AlwaysSafe(p, Next(p, s, events[0]), events[1..]);
    }
  }

  lemma InitiallySafe(p: Pair, s: State, events: seq<Event>)
    requires p.Valid() && Initial(p, s) && Runs(p, s, events)
    ensures Safe(p, After(p, s, events))
  {
    AlwaysSafe(p, s, events);
  }

  lemma SecondNeedsFirst(p: Pair, chain: seq<Entry>, i: nat)
    requires InOrder(p, chain) && i < |chain| && chain[i].hash == p.secondHash
    ensures FirstSucceeded(p, chain)
  {
    assert FirstSucceeded(p, chain[..i]);
  }

  /** Once the first transaction has failed on the chain, the second is never sent. */
  lemma FailureBlocksSecond(p: Pair, s: State, events: seq<Event>, error: string)
    requires p.Valid() && Initial(p, s) && Runs(p, s, events)
    requires error != "" && Entry(p.firstHash, error) in After(p, s, events).chain
    ensures p.Second() !in After(p, s, events).sent && !OnChain(After(p, s, events).chain, p.secondHash)
  {
    InitiallySafe(p, s, events);
    var t := After(p, s, events);
    var i :| 0 <= i < |t.chain| && t.chain[i] == Entry(p.firstHash, error);
    assert !FirstSucceeded(p, t.chain);
    forall j | 0 <= j < |t.chain|
      ensures t.chain[j].hash != p.secondHash
    {
      if t.chain[j].hash == p.secondHash {
        SecondNeedsFirst(p, t.chain, j);
      }
    }
  }

  // ----- progress

  /** Two calls, with the first transaction taken up in between, send both transactions in order. */
  lemma TwoCallsSuffice(p: Pair, s: State) returns (events: seq<Event>)
    requires p.Valid() && Initial(p, s)
    ensures Runs(p, s, events) && After(p, s, events).sent == [p.First(), p.Second()]
  {
    var e0, e1, e2 := Begin(0), Fetch(0, NotFound), Send(0);
    var e3, e4, e5, e6 := Include(p.First(), ""), Begin(1), Fetch(1, Found("")), Send(1);
    var s1 := Next(p, s, e0);
    var s2 := Next(p, s1, e1);
    var s3 := Next(p, s2, e2);
    var s4 := Next(p, s3, e3);
    var s5 := Next(p, s4, e4);
    var s6 := Next(p, s5, e5);
    events := [e6];
    Prepend(p, s5, e5, events);
    events := [e5] + events;
    Prepend(p, s4, e4, events);
    events := [e4] + events;
    Prepend(p, s3, e3, events);
    events := [e3] + events;
    Prepend(p, s2, e2, events);
    events := [e2] + events;
    Prepend(p, s1, e1, events);
    events := [e1] + events;
    Prepend(p, s, e0, events);
    events := [e0] + events;
  }

  lemma Prepend(p: Pair, s: State, e: Event, events: seq<Event>)
    requires p.Valid() && Enabled(p, s, e) && Runs(p, Next(p, s, e), events)
    ensures Runs(p, s, [e] + events) && After(p, s, [e] + events) == After(p, Next(p, s, e), events)
  {
    assert ([e] + events)[1..] == events;
  }

  // ----- the pair a signed transaction gives

  /** What is sent are exactly the signed encodings of the first and of the second transaction. */
  lemma PiecesAreEncodings(tx: Tx, marshal: Marshal, p: Pair)
    requires tx.Valid() && |tx.tronTxs| == 2 && tx.LengthsRecorded(marshal)
    requires tx.Encodings(marshal).Some? && p.bytes == Concat(tx.Encodings(marshal).value)
    requires p.length == tx.metadata[0].length
    ensures p.length <= |p.bytes|
    ensures Some(p.First()) == Encode(tx.tronTxs[0], marshal)
    ensures Some(p.Second()) == Encode(tx.tronTxs[1], marshal)
  {
    EncodeEach(tx.tronTxs, marshal);
    var parts: seq<Encoding> := tx.Encodings(marshal).value;
    assert Concat(parts[1..]) == parts[1] + Concat(parts[1..][1..]);
    assert p.bytes == parts[0] + parts[1];
  }
}
