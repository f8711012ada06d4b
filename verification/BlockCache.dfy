/**
 * Blocks on the wire and in the cache (`block::hydrate`, include/gs++/block.hpp; `block::serialize`,
 * src/block.cpp).
 */
module BlockCache {
  import opened Options
  import opened Transactions
  import opened Bytes
  import opened Wire

  datatype Header = Header(version: nat, prevBlock: Txid, merkleRoot: Txid, timestamp: nat, bits: nat, nonce: nat)

  datatype Block = Block(hash: Txid, header: Header, txs: seq<Transaction>)

  const HEADER_SIZE: nat := 80

  function HeaderBytes(h: Header): (b: Data)
    ensures |b| == HEADER_SIZE
  {
    ToLE(h.version, 4) + ToLE(h.prevBlock, 32) + ToLE(h.merkleRoot, 32) + ToLE(h.timestamp, 4) + ToLE(h.bits, 4) + ToLE(h.nonce, 4)
  }

  function HeaderAt(s: Data): Header
    requires |s| >= HEADER_SIZE
  {
    Header(FromLE(s[..4]), FromLE(s[4..36]), FromLE(s[36..68]), FromLE(s[68..72]), FromLE(s[72..76]), FromLE(s[76..80]))
  }

  /** The fields fit their sizes. */
  ghost predicate HeaderFits(h: Header) {
    && h.version < Pow256(4) && h.prevBlock < Pow256(32) && h.merkleRoot < Pow256(32)
    && h.timestamp < Pow256(4) && h.bits < Pow256(4) && h.nonce < Pow256(4)
  }

  lemma HeaderRoundTrip(h: Header, rest: Data)
    requires HeaderFits(h)
    ensures HeaderAt(HeaderBytes(h) + rest) == h
  {
    var s := HeaderBytes(h) + rest;
    HeaderFields(h, rest);
    FromToLE(h.version, 4);
    FromToLE(h.prevBlock, 32);
    FromToLE(h.merkleRoot, 32);
    FromToLE(h.timestamp, 4);
    FromToLE(h.bits, 4);
    FromToLE(h.nonce, 4);
  }

  lemma HeaderFields(h: Header, rest: Data)
    ensures
      var s := HeaderBytes(h) + rest;
      && s[..4] == ToLE(h.version, 4) && s[4..36] == ToLE(h.prevBlock, 32) && s[36..68] == ToLE(h.merkleRoot, 32)
      && s[68..72] == ToLE(h.timestamp, 4) && s[72..76] == ToLE(h.bits, 4) && s[76..80] == ToLE(h.nonce, 4)
  {
  }

  lemma HeaderReadBack(s: Data)
    requires |s| >= HEADER_SIZE
    ensures HeaderFits(HeaderAt(s)) && HeaderBytes(HeaderAt(s)) == s[..HEADER_SIZE]
  {
    ToFromLE(s[..4]);
    ToFromLE(s[4..36]);
    ToFromLE(s[36..68]);
    ToFromLE(s[68..72]);
    ToFromLE(s[72..76]);
    ToFromLE(s[76..80]);
    HeaderParts(s);
  }

  lemma HeaderParts(s: Data)
    requires |s| >= HEADER_SIZE
    ensures s[..HEADER_SIZE] == s[..4] + s[4..36] + s[36..68] + s[68..72] + s[72..76] + s[76..80]
  {
  }

  // ----- Reading -----

  /** A reader of transactions, which blocks are read with. */
  type Reader = Data -> Parsed<Transaction>

  /** A reader keeps the bytes it read, and what follows them makes no difference. */
  ghost predicate SelfDelimits(read: Reader) {
    && (forall s :: Keeps(read, s))
    && (forall b, rest, tx :: Delimits(read, b, rest, tx))
  }

  ghost predicate Keeps(read: Reader, s: Data) {
    read(s).Got? ==> 0 < read(s).next <= |s| && read(s).value.serialized == s[..read(s).next]
  }

  ghost predicate Delimits(read: Reader, b: Data, rest: Data, tx: Transaction) {
    read(b + rest) == Got(tx, |b|) <==> read(b) == Got(tx, |b|)
  }

  /** `transaction::hydrate` as a reader. */
  function TransactionReader(sha: Data -> Txid): Reader {
    s => Hydrated(s, sha)
  }

  lemma TransactionReaderDelimits(sha: Data -> Txid)
    ensures SelfDelimits(TransactionReader(sha))
  {
    forall b, rest, tx ensures Delimits(TransactionReader(sha), b, rest, tx) { SelfDelimiting(b, rest, sha, tx); }
  }

  /** `n` transactions from position `p`. */
  function TransactionList(s: Data, p: nat, n: nat, read: Reader): Parsed<seq<Transaction>> {
    if n == 0 then Got([], p)
    else
      var front := TransactionList(s, p, n - 1, read);
      if front.Fail? || front.next >= |s| then Fail
      else
        var tx := read(s[front.next..]);
        if tx.Fail? then Fail else Got(front.value + [tx.value], front.next + |tx.value.serialized|)
  }

  /** What `slp_only` keeps. */
  function Kept(txs: seq<Transaction>, slpOnly: bool): seq<Transaction> {
    if |txs| == 0 then []
    else
      var front, tx := Kept(txs[..|txs| - 1], slpOnly), txs[|txs| - 1];
      if !slpOnly || !tx.slp.action.Invalid? then front + [tx] else front
  }

  function HydratedBlock(s: Data, slpOnly: bool, read: Reader, sha: Data -> Txid): Option<Block> {
    if HEADER_SIZE >= |s| || HEADER_SIZE + VarIntExtra(s[HEADER_SIZE]) >= |s| then None
    else
      var header := HeaderAt(s);
      var start := HEADER_SIZE + 1 + VarIntExtra(s[HEADER_SIZE]);
      var txs := TransactionList(s, start, VarIntAt(s, HEADER_SIZE), read);
      if txs.Fail? then None else Some(Block(sha(HeaderBytes(header)), header, Kept(txs.value, slpOnly)))
  }

  /** `block::hydrate` */
  method HydrateBlock(s: Data, slpOnly: bool, read: Reader, sha: Data -> Txid) returns (r: Option<Block>)
    ensures r == HydratedBlock(s, slpOnly, read, sha)
  {
    var header := ReadHeader(s);
    if header.Fail? {
      return None;
    }
    var it := header.next;
    if it + VarIntExtra(s[it]) >= |s| {
      return None;
    }
    var count := VarIntAt(s, it);
    it := it + 1 + VarIntExtra(s[it]);
    var txs := ReadTransactions(s, it, count, slpOnly, read);
    if txs.None? {
      return None;
    }
    return Some(Block(sha(HeaderBytes(header.value)), header.value, txs.value));
  }

  /** The loop of `block::hydrate`. */
  method ReadTransactions(s: Data, start: nat, count: nat, slpOnly: bool, read: Reader) returns (r: Option<seq<Transaction>>)
    ensures
      var all := TransactionList(s, start, count, read);
      r == if all.Fail? then None else Some(Kept(all.value, slpOnly))
  {
    var it: nat := start;
    var txs: seq<Transaction> := [];
    ghost var all: seq<Transaction> := [];
    for i := 0 to count
      invariant TransactionList(s, start, i, read) == Got(all, it) && txs == Kept(all, slpOnly)
    {
      if it >= |s| || read(s[it..]).Fail? {
        TransactionsFail(s, start, i + 1, count, read);
        return None;
      }
      var tx := read(s[it..]).value;
      KeptAppend(all, tx, slpOnly);
      all := all + [tx];
      if !slpOnly || !tx.slp.action.Invalid? {
        txs := txs + [tx];
      }
      it := it + |tx.serialized|;
    }
    return Some(txs);
  }

  /** The fixed fields, each checked before it is read. */
  method ReadHeader(s: Data) returns (r: Parsed<Header>)
    ensures HEADER_SIZE >= |s| ==> r.Fail?
    ensures HEADER_SIZE < |s| ==> r == Got(HeaderAt(s), HEADER_SIZE)
  {
    if 4 >= |s| { return Fail; }
    var version := FromLE(s[..4]);
    if 36 >= |s| { return Fail; }
    var prevBlock := FromLE(s[4..36]);
    if 68 >= |s| { return Fail; }
    var merkleRoot := FromLE(s[36..68]);
    if 72 >= |s| { return Fail; }
    var timestamp := FromLE(s[68..72]);
    if 76 >= |s| { return Fail; }
    var bits := FromLE(s[72..76]);
    if 80 >= |s| { return Fail; }
    var nonce := FromLE(s[76..80]);
    return Got(Header(version, prevBlock, merkleRoot, timestamp, bits, nonce), 80);
  }

  lemma {:induction false} TransactionsFail(s: Data, p: nat, k: nat, n: nat, read: Reader)
    requires k <= n && TransactionList(s, p, k, read).Fail?
    ensures TransactionList(s, p, n, read).Fail?
    decreases n
  {
    if k < n {
      TransactionsFail(s, p, k, n - 1, read);
    }
  }

  lemma {:induction false} AllKept(txs: seq<Transaction>)
    ensures Kept(txs, false) == txs
    decreases |txs|
  {
    if |txs| > 0 {
      AllKept(txs[..|txs| - 1]);
    }
  }

  /** Exactly the transactions with an SLP message are kept, as often as they come. */
  lemma {:induction false} KeptExactly(txs: seq<Transaction>, tx: Transaction)
    ensures multiset(Kept(txs, true))[tx] == if tx.slp.action.Invalid? then 0 else multiset(txs)[tx]
    decreases |txs|
  {
    if |txs| > 0 {
      var n := |txs| - 1;
      var front, last := txs[..n], txs[n];
      KeptExactly(front, tx);
      CountMore(front, last, tx);
      CountMore(Kept(front, true), last, tx);
      assert txs == front + [last];
    }
  }

  lemma CountMore(txs: seq<Transaction>, last: Transaction, tx: Transaction)
    ensures multiset(txs + [last])[tx] == multiset(txs)[tx] + if tx == last then 1 else 0
  {
  }

  lemma KeptAppend(txs: seq<Transaction>, tx: Transaction, slpOnly: bool)
    ensures Kept(txs + [tx], slpOnly) == Kept(txs, slpOnly) + (if !slpOnly || !tx.slp.action.Invalid? then [tx] else [])
  {
    assert (txs + [tx])[..|txs|] == txs;
  }

  // ----- Writing -----

  function SerializedAll(txs: seq<Transaction>): Data {
    if |txs| == 0 then [] else SerializedAll(txs[..|txs| - 1]) + txs[|txs| - 1].serialized
  }

  function SerializedBlock(b: Block): Data {
    HeaderBytes(b.header) + NumToVarInt(|b.txs|) + SerializedAll(b.txs)
  }

  /** `block::serialize` */
  method Serialize(b: Block) returns (ss: Data)
    ensures ss == SerializedBlock(b)
  {
    ss := ToLE(b.header.version, 4);
    ss := ss + ToLE(b.header.prevBlock, 32);
    ss := ss + ToLE(b.header.merkleRoot, 32);
    ss := ss + ToLE(b.header.timestamp, 4);
    ss := ss + ToLE(b.header.bits, 4);
    ss := ss + ToLE(b.header.nonce, 4);
    ss := ss + NumToVarInt(|b.txs|);
    ghost var start := ss;
    for i := 0 to |b.txs|
      invariant ss == start + SerializedAll(b.txs[..i])
    {
      assert b.txs[..i + 1][..i] == b.txs[..i];
      ss := ss + b.txs[i].serialized;
    }
    assert b.txs[..|b.txs|] == b.txs;
  }

  // ----- The cache -----

  /** The transaction is what its own bytes hold. */
  ghost predicate Genuine(tx: Transaction, read: Reader) {
    read(tx.serialized) == Got(tx, |tx.serialized|)
  }

  ghost predicate AllGenuine(txs: seq<Transaction>, read: Reader) {
    forall i :: 0 <= i < |txs| ==> Genuine(txs[i], read)
  }

  /** A block as the reader makes them. */
  ghost predicate Sound(b: Block, read: Reader, sha: Data -> Txid) {
    HeaderFits(b.header) && b.hash == sha(HeaderBytes(b.header)) && |b.txs| < 0x10000000000000000 && AllGenuine(b.txs, read)
  }

  /** `b` is in `s` at position `p`. */
  ghost predicate Holds(s: Data, p: nat, b: Data) {
    p + |b| <= |s| && s[p..p + |b|] == b
  }

  lemma HoldsParts(s: Data, p: nat, b: Data, c: Data)
    requires Holds(s, p, b + c)
    ensures Holds(s, p, b) && Holds(s, p + |b|, c)
  {
    var q := p + |b| + |c|;
    assert s[p..p + |b|] == s[p..q][..|b|] == b;
    assert s[p + |b|..q] == s[p..q][|b|..] == c;
  }

  /** A genuine transaction is read wherever its bytes are. */
  lemma ReadHeld(s: Data, p: nat, tx: Transaction, read: Reader)
    requires SelfDelimits(read) && Genuine(tx, read) && Holds(s, p, tx.serialized)
    ensures p < |s| && read(s[p..]) == Got(tx, |tx.serialized|)
  {
    var b, rest := tx.serialized, s[p + |tx.serialized|..];
    assert s[p..] == b + rest;
    assert Delimits(read, b, rest, tx);
    assert Keeps(read, b);
  }

  /** One more transaction behind those that were read. */
  lemma ReadOneMore(s: Data, p: nat, front: seq<Transaction>, q: nat, tx: Transaction, read: Reader)
    requires SelfDelimits(read) && TransactionList(s, p, |front|, read) == Got(front, q)
    requires Genuine(tx, read) && Holds(s, q, tx.serialized)
    ensures TransactionList(s, p, |front| + 1, read) == Got(front + [tx], q + |tx.serialized|)
  {
    ReadHeld(s, q, tx, read);
  }

  /** Transactions written one after the other are read back, whatever follows. */
  lemma {:induction false} TransactionsRoundTrip(s: Data, p: nat, txs: seq<Transaction>, read: Reader)
    requires SelfDelimits(read) && AllGenuine(txs, read) && Holds(s, p, SerializedAll(txs))
    ensures TransactionList(s, p, |txs|, read) == Got(txs, p + |SerializedAll(txs)|)
    decreases |txs|
  {
    if |txs| > 0 {
      var front, tx := txs[..|txs| - 1], txs[|txs| - 1];
      var q := p + |SerializedAll(front)|;
      assert Holds(s, p, SerializedAll(front)) && Holds(s, q, tx.serialized) by {
        HoldsParts(s, p, SerializedAll(front), tx.serialized);
      }
      assert TransactionList(s, p, |front|, read) == Got(front, q) by { TransactionsRoundTrip(s, p, front, read); }
      assert Genuine(tx, read);
      assert TransactionList(s, p, |front| + 1, read) == Got(front + [tx], q + |tx.serialized|) by {
        ReadOneMore(s, p, front, q, tx, read);
      }
      FrontAndLast(txs);
    }
  }

  lemma FrontAndLast<T>(s: seq<T>)
    requires |s| > 0
    ensures s[..|s| - 1] + [s[|s| - 1]] == s
  {
  }

  /** Hydrating a serialized block gives its header and transactions back. */
  lemma BlockRoundTrip(b: Block, slpOnly: bool, read: Reader, sha: Data -> Txid)
    requires SelfDelimits(read) && Sound(b, read, sha)
    ensures HydratedBlock(SerializedBlock(b), slpOnly, read, sha) == Some(b.(txs := Kept(b.txs, slpOnly)))
  {
    SerializedFront(b);
    SerializedBack(b, read);
  }

  /** The header and the count, as they are read. */
  lemma SerializedFront(b: Block)
    requires HeaderFits(b.header) && |b.txs| < 0x10000000000000000
    ensures
      var s, p := SerializedBlock(b), HEADER_SIZE;
      p < |s| && p + VarIntExtra(s[p]) < |s| && HeaderAt(s) == b.header && VarIntAt(s, p) == |b.txs|
      && |NumToVarInt(|b.txs|)| == 1 + VarIntExtra(s[p])
  {
    var header, count, body := HeaderBytes(b.header), NumToVarInt(|b.txs|), SerializedAll(b.txs);
    VarIntRoundTrip(|b.txs|, header, body);
    assert SerializedBlock(b) == header + (count + body);
    HeaderRoundTrip(b.header, count + body);
  }

  /** The transactions behind them. */
  lemma SerializedBack(b: Block, read: Reader)
    requires SelfDelimits(read) && AllGenuine(b.txs, read)
    ensures
      var s, start := SerializedBlock(b), HEADER_SIZE + |NumToVarInt(|b.txs|)|;
      TransactionList(s, start, |b.txs|, read) == Got(b.txs, |s|)
  {
    var s, start := SerializedBlock(b), HEADER_SIZE + |NumToVarInt(|b.txs|)|;
    assert Holds(s, start, SerializedAll(b.txs));
    TransactionsRoundTrip(s, start, b.txs, read);
  }

  /** Transactions that were read are genuine, and their bytes are the bytes that were read. */
  lemma {:induction false} TransactionsGenuine(s: Data, p: nat, n: nat, read: Reader)
    requires SelfDelimits(read) && p <= |s| && TransactionList(s, p, n, read).Got?
    ensures
      var r := TransactionList(s, p, n, read);
      |r.value| == n && AllGenuine(r.value, read) && r.next == p + |SerializedAll(r.value)| && Holds(s, p, SerializedAll(r.value))
    decreases n
  {
    if n > 0 {
      var front := TransactionList(s, p, n - 1, read);
      TransactionsGenuine(s, p, n - 1, read);
      var t := s[front.next..];
      var tx := read(t);
      LastGenuine(t, read);
      SerializedMore(front.value, tx.value);
      HoldsMore(s, p, SerializedAll(front.value), tx.value.serialized);
    }
  }

  lemma LastGenuine(t: Data, read: Reader)
    requires SelfDelimits(read) && read(t).Got?
    ensures Genuine(read(t).value, read) && Holds(t, 0, read(t).value.serialized)
  {
    var tx := read(t);
    assert Keeps(read, t);
    assert t == tx.value.serialized + t[tx.next..];
    assert Delimits(read, tx.value.serialized, t[tx.next..], tx.value);
  }

  lemma SerializedMore(front: seq<Transaction>, tx: Transaction)
    ensures SerializedAll(front + [tx]) == SerializedAll(front) + tx.serialized
  {
    assert (front + [tx])[..|front|] == front;
  }

  lemma HoldsMore(s: Data, p: nat, b: Data, c: Data)
    requires Holds(s, p, b) && Holds(s[p + |b|..], 0, c)
    ensures Holds(s, p, b + c)
  {
    var t := s[p + |b|..];
    assert s[p + |b|..p + |b| + |c|] == t[..|c|] == c;
    assert s[p..p + |b| + |c|] == s[p..p + |b|] + s[p + |b|..p + |b| + |c|];
  }

  lemma {:induction false} KeptTwice(txs: seq<Transaction>, slpOnly: bool)
    ensures Kept(Kept(txs, slpOnly), slpOnly) == Kept(txs, slpOnly) && |Kept(txs, slpOnly)| <= |txs|
    decreases |txs|
  {
    if |txs| > 0 {
      var n := |txs| - 1;
      KeptTwice(txs[..n], slpOnly);
      KeptAppend(Kept(txs[..n], slpOnly), txs[n], slpOnly);
    }
  }

  lemma {:induction false} KeptGenuine(txs: seq<Transaction>, slpOnly: bool, read: Reader)
    requires AllGenuine(txs, read)
    ensures AllGenuine(Kept(txs, slpOnly), read)
    decreases |txs|
  {
    if |txs| > 0 {
      var n := |txs| - 1;
      assert Genuine(txs[n], read);
      assert AllGenuine(txs[..n], read);
      KeptGenuine(txs[..n], slpOnly, read);
    }
  }

  lemma CountFits(s: Data)
    requires |s| > HEADER_SIZE && HEADER_SIZE + VarIntExtra(s[HEADER_SIZE]) < |s|
    ensures VarIntAt(s, HEADER_SIZE) < 0x10000000000000000
  {
    var k := VarIntExtra(s[HEADER_SIZE]);
    ToFromLE(s[HEADER_SIZE + 1..HEADER_SIZE + 1 + k]);
    Widths();
  }

  /** Every block that is read is sound. */
  lemma ReadIsSound(s: Data, slpOnly: bool, read: Reader, sha: Data -> Txid)
    requires SelfDelimits(read) && HydratedBlock(s, slpOnly, read, sha).Some?
    ensures Sound(HydratedBlock(s, slpOnly, read, sha).value, read, sha)
    ensures
      var b := HydratedBlock(s, slpOnly, read, sha).value;
      Kept(b.txs, slpOnly) == b.txs
  {
    var start, n := HEADER_SIZE + 1 + VarIntExtra(s[HEADER_SIZE]), VarIntAt(s, HEADER_SIZE);
    HeaderReadBack(s);
    CountFits(s);
    TransactionsGenuine(s, start, n, read);
    KeptGenuine(TransactionList(s, start, n, read).value, slpOnly, read);
    KeptTwice(TransactionList(s, start, n, read).value, slpOnly);
  }

  /** The data start with the header of `b`, the number of transactions `all`, and their bytes; `b` keeps some. */
  ghost predicate Encodes(s: Data, slpOnly: bool, read: Reader, sha: Data -> Txid, b: Block, all: seq<Transaction>) {
    && |s| > 80 && HeaderFits(b.header) && s[..80] == HeaderBytes(b.header) && b.hash == sha(s[..80])
    && CountIs(s, |all|) && AllGenuine(all, read) && b.txs == Kept(all, slpOnly)
    && Holds(s, 81 + VarIntExtra(s[80]), SerializedAll(all))
  }

  ghost predicate CountIs(s: Data, n: nat) {
    |s| > 80 && 80 + VarIntExtra(s[80]) < |s| && VarIntAt(s, 80) == n
  }

  /** A block is read from exactly the data that encode it: nothing less is enough, and what follows is ignored. */
  lemma BlockExactly(s: Data, slpOnly: bool, read: Reader, sha: Data -> Txid, b: Block)
    requires SelfDelimits(read)
    ensures HydratedBlock(s, slpOnly, read, sha) == Some(b) <==> exists all :: Encodes(s, slpOnly, read, sha, b, all)
  {
    if HydratedBlock(s, slpOnly, read, sha) == Some(b) {
      var start, n := 81 + VarIntExtra(s[80]), VarIntAt(s, 80);
      HeaderReadBack(s);
      TransactionsGenuine(s, start, n, read);
      assert Encodes(s, slpOnly, read, sha, b, TransactionList(s, start, n, read).value);
    }
    if all :| Encodes(s, slpOnly, read, sha, b, all) {
      EncodedIsRead(s, slpOnly, read, sha, b, all);
    }
  }

  lemma EncodedIsRead(s: Data, slpOnly: bool, read: Reader, sha: Data -> Txid, b: Block, all: seq<Transaction>)
    requires SelfDelimits(read) && Encodes(s, slpOnly, read, sha, b, all)
    ensures HydratedBlock(s, slpOnly, read, sha) == Some(b)
  {
    TransactionsRoundTrip(s, 81 + VarIntExtra(s[80]), all, read);
    HeaderRoundTrip(b.header, s[80..]);
    assert s == s[..80] + s[80..];
  }

  /** A block that was read comes back from the cache as it was. */
  lemma CacheRoundTrip(s: Data, slpOnly: bool, sha: Data -> Txid)
    requires HydratedBlock(s, slpOnly, TransactionReader(sha), sha).Some?
    ensures
      var b := HydratedBlock(s, slpOnly, TransactionReader(sha), sha).value;
      HydratedBlock(SerializedBlock(b), slpOnly, TransactionReader(sha), sha) == Some(b)
  {
    TransactionReaderDelimits(sha);
    ReadBack(s, slpOnly, TransactionReader(sha), sha);
  }

  lemma ReadBack(s: Data, slpOnly: bool, read: Reader, sha: Data -> Txid)
    requires SelfDelimits(read) && HydratedBlock(s, slpOnly, read, sha).Some?
    ensures
      var b := HydratedBlock(s, slpOnly, read, sha).value;
      HydratedBlock(SerializedBlock(b), slpOnly, read, sha) == Some(b)
  {
    ReadIsSound(s, slpOnly, read, sha);
    BlockRoundTrip(HydratedBlock(s, slpOnly, read, sha).value, slpOnly, read, sha);
  }
}
