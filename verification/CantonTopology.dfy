/** The Canton topology multi-hash. SHA-256 is a parameter of which only the 32-byte length is assumed. */
module CantonTopology {
  import opened Wrappers
  import opened Bytes
  import opened Sorting
  import opened Ordering

  const TRANSACTION_HASH_PURPOSE := 11
  const MULTI_HASH_PURPOSE := 55
  const SHA256_MULTIHASH_PREFIX: seq<byte> := [0x12, 0x20]

  type Sha = seq<byte> -> seq<byte>

  ghost predicate IsDigest(sha: Sha) {
    forall x :: |sha(x)| == 32
  }

  function Payload(purpose: int, content: seq<byte>): seq<byte> {
    BeBytes(purpose, 4) + content
  }

  function CantonHash(sha: Sha, purpose: int, content: seq<byte>): seq<byte> {
    SHA256_MULTIHASH_PREFIX + sha(Payload(purpose, content))
  }

  datatype HashError = EmptyTransaction | NoTransactions

  method ComputeTopologyTransactionHash(sha: Sha, serializedTx: seq<byte>) returns (r: Result<seq<byte>, HashError>)
    ensures r == if serializedTx == [] then Err(EmptyTransaction) else Ok(TransactionHash(sha, serializedTx))
  {
    if |serializedTx| == 0 {
      return Err(EmptyTransaction);
    }
    return Ok(CantonHash(sha, TRANSACTION_HASH_PURPOSE, serializedTx));
  }

  function TransactionHash(sha: Sha, tx: seq<byte>): seq<byte> {
    CantonHash(sha, TRANSACTION_HASH_PURPOSE, tx)
  }

  /** On the wire: the multihash prefix of SHA-256 and its digest of the four-byte purpose 11 and the transaction. */
  lemma TransactionHashIs(sha: Sha, tx: seq<byte>)
    ensures TransactionHash(sha, tx) == [0x12, 0x20] + sha([0, 0, 0, 11] + tx)
  {
    FourBytes(11);
  }

  lemma FourBytes(n: nat)
    requires n < 256
    ensures BeBytes(n, 4) == [0, 0, 0, n]
  {
    assert LeBytes(0, 1) == [0];
    assert LeBytes(0, 2) == [0, 0];
    assert LeBytes(0, 3) == [0, 0, 0];
    assert LeBytes(n, 4) == [n, 0, 0, 0];
  }

  ghost predicate DigestsDiffer(sha: Sha, p: seq<byte>, q: seq<byte>) {
    p != q ==> sha(p) != sha(q)
  }

  /**
   * Transaction hashes are equal exactly for equal transactions, and none equals a multi-hash, unless two
   * different byte strings with the hashes' purposes in front have the same digest.
   */
  lemma TransactionHashBinds(sha: Sha, x: seq<byte>, y: seq<byte>, combined: seq<byte>)
    requires DigestsDiffer(sha, Payload(TRANSACTION_HASH_PURPOSE, x), Payload(TRANSACTION_HASH_PURPOSE, y))
    requires DigestsDiffer(sha, Payload(TRANSACTION_HASH_PURPOSE, x), Payload(MULTI_HASH_PURPOSE, combined))
    ensures TransactionHash(sha, x) == TransactionHash(sha, y) <==> x == y
    ensures TransactionHash(sha, x) != CantonHash(sha, MULTI_HASH_PURPOSE, combined)
  {
    if TransactionHash(sha, x) == TransactionHash(sha, y) {
      HashInjective(sha, TRANSACTION_HASH_PURPOSE, TRANSACTION_HASH_PURPOSE, x, y);
      PayloadInjective(TRANSACTION_HASH_PURPOSE, x, y);
    }
    if TransactionHash(sha, x) == CantonHash(sha, MULTI_HASH_PURPOSE, combined) {
      HashInjective(sha, TRANSACTION_HASH_PURPOSE, MULTI_HASH_PURPOSE, x, combined);
      PurposesDiffer(x, combined);
    }
  }

  lemma PurposesDiffer(x: seq<byte>, y: seq<byte>)
    ensures Payload(TRANSACTION_HASH_PURPOSE, x) != Payload(MULTI_HASH_PURPOSE, y)
  {
    BeValueOfBytes(TRANSACTION_HASH_PURPOSE, 4);
    BeValueOfBytes(MULTI_HASH_PURPOSE, 4);
    assert Payload(TRANSACTION_HASH_PURPOSE, x)[..4] == BeBytes(TRANSACTION_HASH_PURPOSE, 4);
    assert Payload(MULTI_HASH_PURPOSE, y)[..4] == BeBytes(MULTI_HASH_PURPOSE, 4);
  }

  function Hashes(sha: Sha, txs: seq<seq<byte>>): (h: seq<seq<byte>>)
    ensures |h| == |txs|
  {
    seq(|txs|, i requires 0 <= i < |txs| => TransactionHash(sha, txs[i]))
  }

  function ByteRank(b: byte): int { b }

  const BytesLeq: (seq<byte>, seq<byte>) -> bool := (a: seq<byte>, b: seq<byte>) => LexLeq(a, b, ByteRank)

  /** Hashes are ordered by their first different byte, smaller ones first. */
  lemma BytesLeqIs(a: seq<byte>, b: seq<byte>)
    ensures BytesLeq(a, b) <==>
            exists k :: 0 <= k <= |a| && k <= |b| && a[..k] == b[..k] && (k == |a| || (k < |b| && a[k] < b[k]))
  {
    LexIsFirstDifference(a, b, ByteRank);
    if k: nat :| FirstDifference(a, b, ByteRank, k) {
      assert a[..k] == b[..k];
    }
    if k :| 0 <= k <= |a| && k <= |b| && a[..k] == b[..k] && (k == |a| || (k < |b| && a[k] < b[k])) {
      assert forall i :: 0 <= i < k ==> a[i] == a[..k][i] && b[i] == b[..k][i];
      assert FirstDifference(a, b, ByteRank, k);
    }
  }

  lemma BytesLeqIsOrder(s: seq<seq<byte>>)
    ensures TotalPreorder(BytesLeq) && Distinguishes(BytesLeq, s)
  {
    forall a: seq<byte>, b: seq<byte>, c: seq<byte>
      ensures BytesLeq(a, b) || BytesLeq(b, a)
      ensures BytesLeq(a, b) && BytesLeq(b, c) ==> BytesLeq(a, c)
      ensures BytesLeq(a, b) && BytesLeq(b, a) ==> a == b
    {
      LexTotal(a, b, ByteRank);
      if BytesLeq(a, b) && BytesLeq(b, c) {
        LexTransitive(a, b, c, ByteRank);
      }
      if BytesLeq(a, b) && BytesLeq(b, a) {
        LexAntisymmetric(a, b, ByteRank);
      }
    }
  }

  /** Each hash behind its 4-byte big-endian length. */
  function Framed(hashes: seq<seq<byte>>): seq<byte> {
    if hashes == [] then [] else BeBytes(|hashes[0]|, 4) + hashes[0] + Framed(hashes[1..])
  }

  /** The number of hashes, cut to 32 bits, and the framed hashes. */
  function Combined(hashes: seq<seq<byte>>): seq<byte> {
    BeBytes(|hashes|, 4) + Framed(hashes)
  }

  lemma {:induction false} FramedConcat(a: seq<seq<byte>>, b: seq<seq<byte>>)
    ensures Framed(a + b) == Framed(a) + Framed(b)
  {
    hide BeBytes;
    if a == [] {
      assert a + b == b;
    } else {
      FramedConcat(a[1..], b);
      assert (a + b)[1..] == a[1..] + b;
    }
  }

  ghost predicate IsMultiHash(sha: Sha, txs: seq<seq<byte>>, hash: seq<byte>) {
    exists s: seq<seq<byte>> :: IsSortedHashes(sha, txs, s) && hash == CantonHash(sha, MULTI_HASH_PURPOSE, Combined(s))
  }

  ghost predicate IsSortedHashes(sha: Sha, txs: seq<seq<byte>>, s: seq<seq<byte>>) {
    multiset(s) == multiset(Hashes(sha, txs)) && SortedBy(s, BytesLeq)
  }

  method ComputeTopologyMultiHash(sha: Sha, serializedTxs: seq<seq<byte>>) returns (r: Result<seq<byte>, HashError>)
    ensures serializedTxs == [] ==> r == Err(NoTransactions)
    ensures serializedTxs != [] && [] in serializedTxs ==> r == Err(EmptyTransaction)
    ensures serializedTxs != [] && [] !in serializedTxs ==> r.Ok? && IsMultiHash(sha, serializedTxs, r.value)
  {
    if |serializedTxs| == 0 {
      return Err(NoTransactions);
    }
    var hashes := HashAll(sha, serializedTxs);
    if hashes.Err? {
      return Err(hashes.error);
    }
    var sorted := SortHashes(hashes.value);
    var combined := Combine(sorted);
    assert IsSortedHashes(sha, serializedTxs, sorted);
    return Ok(CantonHash(sha, MULTI_HASH_PURPOSE, combined));
  }

  method HashAll(sha: Sha, serializedTxs: seq<seq<byte>>) returns (r: Result<seq<seq<byte>>, HashError>)
    ensures r == if [] in serializedTxs then Err(EmptyTransaction) else Ok(Hashes(sha, serializedTxs))
  {
    var hashes := [];
    for i := 0 to |serializedTxs|
      invariant hashes == Hashes(sha, serializedTxs)[..i]
      invariant [] !in serializedTxs[..i]
    {
      var hash := ComputeTopologyTransactionHash(sha, serializedTxs[i]);
      if hash.Err? {
        return Err(hash.error);
      }
      hashes := hashes + [hash.value];
    }
    assert serializedTxs[..|serializedTxs|] == serializedTxs;
    assert hashes == Hashes(sha, serializedTxs);
    return Ok(hashes);
  }

  method Combine(hashes: seq<seq<byte>>) returns (combined: seq<byte>)
    ensures combined == Combined(hashes)
  {
    combined := BeBytes(|hashes|, 4);
    for i := 0 to |hashes|
      invariant combined == BeBytes(|hashes|, 4) + Framed(hashes[..i])
    {
      FramedExtend(hashes, i);
      combined := combined + BeBytes(|hashes[i]|, 4);
      combined := combined + hashes[i];
    }
    assert hashes[..|hashes|] == hashes;
  }

  lemma FramedExtend(hashes: seq<seq<byte>>, i: nat)
    requires i < |hashes|
    ensures Framed(hashes[..i + 1]) == Framed(hashes[..i]) + BeBytes(|hashes[i]|, 4) + hashes[i]
  {
    FramedConcat(hashes[..i], [hashes[i]]);
    assert hashes[..i + 1] == hashes[..i] + [hashes[i]];
    assert Framed([hashes[i]]) == BeBytes(|hashes[i]|, 4) + hashes[i] + Framed([]);
  }

  method SortHashes(hashes: seq<seq<byte>>) returns (sorted: seq<seq<byte>>)
    ensures multiset(sorted) == multiset(hashes) && SortedBy(sorted, BytesLeq)
  {
    var a := new seq<byte>[|hashes|](i requires 0 <= i < |hashes| => hashes[i]);
    assert a[..] == hashes;
    BytesLeqIsOrder(hashes);
    SortSlice(a, BytesLeq);
    sorted := a[..];
  }

  // ----- order independence

  lemma {:induction false} HashesOfPermutation(sha: Sha, a: seq<seq<byte>>, b: seq<seq<byte>>)
    requires multiset(a) == multiset(b)
    ensures multiset(Hashes(sha, a)) == multiset(Hashes(sha, b))
    decreases |a|
  {
    hide Hashes, Without, TransactionHash;
    if a == [] {
      assert |b| == |multiset(b)| == 0;
    } else {
      assert a[0] in multiset(b);
      var i :| 0 <= i < |b| && b[i] == a[0];
      HashesOfPermutation(sha, Without(a, 0), Without(b, i));
      HashesWithout(sha, a, 0);
      HashesWithout(sha, b, i);
    }
  }

  lemma HashesWithout(sha: Sha, txs: seq<seq<byte>>, i: nat)
    requires i < |txs|
    ensures multiset(Hashes(sha, txs)) == multiset(Hashes(sha, Without(txs, i))) + multiset{TransactionHash(sha, txs[i])}
    ensures multiset(Hashes(sha, Without(txs, i))) == multiset(Hashes(sha, txs)) - multiset{TransactionHash(sha, txs[i])}
  {
    var h := Hashes(sha, txs);
    assert h == h[..i] + [h[i]] + h[i + 1..];
    assert Hashes(sha, Without(txs, i)) == h[..i] + h[i + 1..];
  }

  /** The multi-hash is the same for every order of the transactions. */
  lemma MultiHashIgnoresOrder(sha: Sha, a: seq<seq<byte>>, b: seq<seq<byte>>, ha: seq<byte>, hb: seq<byte>)
    requires multiset(a) == multiset(b)
    requires IsMultiHash(sha, a, ha) && IsMultiHash(sha, b, hb)
    ensures ha == hb
  {
    var s: seq<seq<byte>> :| IsSortedHashes(sha, a, s) && ha == CantonHash(sha, MULTI_HASH_PURPOSE, Combined(s));
    var t: seq<seq<byte>> :| IsSortedHashes(sha, b, t) && hb == CantonHash(sha, MULTI_HASH_PURPOSE, Combined(t));
    HashesOfPermutation(sha, a, b);
    BytesLeqIsOrder(s);
    SortedUnique(s, t, BytesLeq);
  }

  // ----- equal multi-hashes come from equal multisets

  /** Of the byte strings hashed for a and for b, no two different ones have the same digest. */
  ghost predicate NoCollision(sha: Sha, a: seq<seq<byte>>, b: seq<seq<byte>>) {
    forall x, y :: IsHashed(sha, a, b, x) && IsHashed(sha, a, b, y) && sha(x) == sha(y) ==> x == y
  }

  ghost predicate IsHashed(sha: Sha, a: seq<seq<byte>>, b: seq<seq<byte>>, x: seq<byte>) {
    || (exists tx :: (tx in a || tx in b) && x == Payload(TRANSACTION_HASH_PURPOSE, tx))
    || (exists s: seq<seq<byte>> :: (IsSortedHashes(sha, a, s) || IsSortedHashes(sha, b, s))
                                    && x == Payload(MULTI_HASH_PURPOSE, Combined(s)))
  }

  ghost predicate AllLength34(s: seq<seq<byte>>) {
    forall i :: 0 <= i < |s| ==> |s[i]| == 34
  }

  /** Count and length prefixes make the combination of 34-byte hashes injective, even when the count wraps. */
  lemma {:induction false} FramedInjective(s: seq<seq<byte>>, t: seq<seq<byte>>)
    requires AllLength34(s) && AllLength34(t) && Framed(s) == Framed(t)
    ensures s == t
  {
    if s == [] || t == [] {
      assert s != [] ==> |Framed(s)| >= 38;
      assert t != [] ==> |Framed(t)| >= 38;
    } else {
      var fs, ft := Framed(s), Framed(t);
      assert fs[4..38] == s[0] && ft[4..38] == t[0];
      assert fs[38..] == Framed(s[1..]) && ft[38..] == Framed(t[1..]);
      FramedInjective(s[1..], t[1..]);
      assert s == [s[0]] + s[1..] && t == [t[0]] + t[1..];
    }
  }

  lemma SliceAfter(a: seq<byte>, b: seq<byte>, i: nat, n: nat)
    requires |a| <= i && i + n <= |a| + |b|
    ensures (a + b)[i..i + n] == b[i - |a|..i - |a| + n]
  {
  }

  lemma {:induction false} FramedLayout(s: seq<seq<byte>>, i: nat)
    requires AllLength34(s)
    ensures |Framed(s)| == 38 * |s|
    ensures i < |s| ==> Framed(s)[38 * i..38 * i + 38] == [0, 0, 0, 34] + s[i]
  {
    hide BeBytes;
    if s != [] {
      FramedLayout(s[1..], if i > 0 then i - 1 else 0);
      FourBytes(34);
      var first, rest := [0, 0, 0, 34] + s[0], Framed(s[1..]);
      assert Framed(s) == first + rest;
      if i == 0 {
        assert (first + rest)[0..38] == first;
      } else if i < |s| {
        SliceAfter(first, rest, 38 * i, 38);
        assert s[1..][i - 1] == s[i];
      }
    }
  }

  /**
   * On the wire, for fewer than 256 transactions: the prefix and the digest of the purpose 55, the count, and for
   * each hash in increasing order its length 34 and the hash.
   */
  lemma MultiHashIs(sha: Sha, txs: seq<seq<byte>>, hash: seq<byte>) returns (s: seq<seq<byte>>, frames: seq<byte>)
    requires IsDigest(sha) && IsMultiHash(sha, txs, hash) && |txs| < 256
    ensures multiset(s) == multiset(Hashes(sha, txs)) && (forall i, j :: 0 <= i < j < |s| ==> BytesLeq(s[i], s[j]))
    ensures |frames| == 38 * |s| && forall i :: 0 <= i < |s| ==> frames[38 * i..38 * i + 38] == [0, 0, 0, 34] + s[i]
    ensures hash == [0x12, 0x20] + sha([0, 0, 0, 55] + ([0, 0, 0, |txs|] + frames))
  {
    hide Framed, BeBytes;
    s :| IsSortedHashes(sha, txs, s) && hash == CantonHash(sha, MULTI_HASH_PURPOSE, Combined(s));
    frames := Framed(s);
    SortedHashesLength(sha, txs, s);
    assert |s| == |multiset(s)| == |Hashes(sha, txs)| == |txs|;
    FramedLayout(s, 0);
    forall i | 0 <= i < |s|
      ensures frames[38 * i..38 * i + 38] == [0, 0, 0, 34] + s[i]
    {
      FramedLayout(s, i);
    }
    FourBytes(55);
    FourBytes(|txs|);
  }

  lemma SortedHashesLength(sha: Sha, txs: seq<seq<byte>>, s: seq<seq<byte>>)
    requires IsDigest(sha) && IsSortedHashes(sha, txs, s)
    ensures AllLength34(s)
  {
    forall i | 0 <= i < |s|
      ensures |s[i]| == 34
    {
      assert s[i] in multiset(s);
      assert s[i] in Hashes(sha, txs);
    }
  }

  lemma PayloadInjective(purpose: int, x: seq<byte>, y: seq<byte>)
    requires Payload(purpose, x) == Payload(purpose, y)
    ensures x == y
  {
    assert Payload(purpose, x)[4..] == x && Payload(purpose, y)[4..] == y;
  }

  lemma HashInjective(sha: Sha, first: int, second: int, x: seq<byte>, y: seq<byte>)
    requires CantonHash(sha, first, x) == CantonHash(sha, second, y)
    ensures sha(Payload(first, x)) == sha(Payload(second, y))
  {
    assert CantonHash(sha, first, x)[2..] == sha(Payload(first, x));
    assert CantonHash(sha, second, y)[2..] == sha(Payload(second, y));
  }

  /** Different transactions of a and b have different hashes. */
  ghost predicate Separates(sha: Sha, a: seq<seq<byte>>, b: seq<seq<byte>>) {
    forall x, y :: (x in a || x in b) && (y in a || y in b) && TransactionHash(sha, x) == TransactionHash(sha, y) ==> x == y
  }

  lemma {:induction false} HashesDetermine(sha: Sha, a: seq<seq<byte>>, b: seq<seq<byte>>)
    requires Separates(sha, a, b)
    requires multiset(Hashes(sha, a)) == multiset(Hashes(sha, b))
    ensures multiset(a) == multiset(b)
    decreases |a|
  {
    hide TransactionHash, Without, Separates;
    if a == [] {
      assert |b| == |multiset(Hashes(sha, b))| == |multiset(Hashes(sha, a))| == 0;
    } else {
      var i := FindHash(sha, b, TransactionHash(sha, a[0]), Hashes(sha, a));
      SeparatesAt(sha, a, b, i);
      HashesWithout(sha, a, 0);
      HashesWithout(sha, b, i);
      WithoutFirst(a);
      HashesDetermine(sha, Without(a, 0), Without(b, i));
      Rejoin(a, b, i);
    }
  }

  lemma SeparatesAt(sha: Sha, a: seq<seq<byte>>, b: seq<seq<byte>>, i: nat)
    requires Separates(sha, a, b) && a != [] && i < |b| && TransactionHash(sha, b[i]) == TransactionHash(sha, a[0])
    ensures a[0] == b[i] && Separates(sha, a[1..], Without(b, i))
  {
    WithoutMembers(b, i);
    assert a[0] in a && b[i] in b;
  }

  lemma Rejoin(a: seq<seq<byte>>, b: seq<seq<byte>>, i: nat)
    requires a != [] && i < |b| && a[0] == b[i] && multiset(a[1..]) == multiset(Without(b, i))
    ensures multiset(a) == multiset(b)
  {
    assert a == [a[0]] + a[1..];
    assert b[i] in multiset(b);
  }

  lemma WithoutFirst(a: seq<seq<byte>>)
    requires a != []
    ensures Without(a, 0) == a[1..]
  {
  }

  lemma WithoutMembers(b: seq<seq<byte>>, i: nat)
    requires i < |b|
    ensures forall x :: x in Without(b, i) ==> x in b
  {
  }

  lemma FindHash(sha: Sha, b: seq<seq<byte>>, h: seq<byte>, others: seq<seq<byte>>) returns (i: nat)
    requires multiset(others) == multiset(Hashes(sha, b)) && others != [] && others[0] == h
    ensures i < |b| && TransactionHash(sha, b[i]) == h
  {
    assert h in multiset(others);
    i :| 0 <= i < |b| && Hashes(sha, b)[i] == h;
  }

  /**
   * Binding: unless two byte strings that were actually hashed collide, equal multi-hashes mean that the
   * same transactions were hashed, each equally often.
   */
  lemma MultiHashBinds(sha: Sha, a: seq<seq<byte>>, b: seq<seq<byte>>, h: seq<byte>)
    requires IsDigest(sha) && NoCollision(sha, a, b)
    requires IsMultiHash(sha, a, h) && IsMultiHash(sha, b, h)
    ensures multiset(a) == multiset(b)
  {
    var s: seq<seq<byte>> :| IsSortedHashes(sha, a, s) && h == CantonHash(sha, MULTI_HASH_PURPOSE, Combined(s));
    var t: seq<seq<byte>> :| IsSortedHashes(sha, b, t) && h == CantonHash(sha, MULTI_HASH_PURPOSE, Combined(t));
    HashInjective(sha, MULTI_HASH_PURPOSE, MULTI_HASH_PURPOSE, Combined(s), Combined(t));
    assert IsHashed(sha, a, b, Payload(MULTI_HASH_PURPOSE, Combined(s)));
    assert IsHashed(sha, a, b, Payload(MULTI_HASH_PURPOSE, Combined(t)));
    PayloadInjective(MULTI_HASH_PURPOSE, Combined(s), Combined(t));
    assert Combined(s)[4..] == Framed(s) && Combined(t)[4..] == Framed(t);
    SortedHashesLength(sha, a, s);
    SortedHashesLength(sha, b, t);
    FramedInjective(s, t);
    assert Separates(sha, a, b) by {
      forall x, y | (x in a || x in b) && (y in a || y in b) && TransactionHash(sha, x) == TransactionHash(sha, y)
        ensures x == y
      {
        HashInjective(sha, TRANSACTION_HASH_PURPOSE, TRANSACTION_HASH_PURPOSE, x, y);
        assert IsHashed(sha, a, b, Payload(TRANSACTION_HASH_PURPOSE, x));
        assert IsHashed(sha, a, b, Payload(TRANSACTION_HASH_PURPOSE, y));
        PayloadInjective(TRANSACTION_HASH_PURPOSE, x, y);
      }
    }
    HashesDetermine(sha, a, b);
  }
}
