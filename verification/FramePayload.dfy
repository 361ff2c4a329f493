/** The frame transaction a send signs and posts: how it is priced, built, hashed and completed with its
    signature. Byte strings stand for hex strings, the empty one for `0x`. */
module FramePayload {
  import opened Bits
  import opened Bytes
  import opened Wrappers

  type Address = Bytes

  const SIGNATURE_BYTES: nat := 6176
  const CHAIN_ID: nat := 1337
  /** Milliseconds for which a review and a preparation stay good. */
  const FRESHNESS_MS: nat := 240000

  datatype Key = Key(pkSeed: Bytes, pkRoot: Bytes)

  datatype Witness = Witness(scheme: Bytes, signer: Bytes, msg: Bytes, signature: Bytes)

  datatype Frame = Frame(mode: nat, flags: nat, target: Address, executionGas: nat, stateGas: nat, value: nat,
      data: Bytes)

  datatype Payload = Payload(chainId: nat, nonce: nat, sender: Address, frames: seq<Frame>, witnesses: seq<Witness>,
                             priorityFee: nat, maxFee: nat)

  /** What lies outside this model: the frame encoding, the hash, the address derivation and the factory call. */
  datatype Codec = Codec(encode: Payload -> Bytes, keccak: Bytes -> Bytes, addressOf: Key -> Address,
                         createAccount: Key -> Bytes, factory: Address)

  // ---------------------------------------------------------------- signing and completing

  /** A witness as the digest sees it: one that signs this very transaction has its signature blanked. */
  function Blank(w: Witness): Witness {
    if w.msg == [] then w.(signature := []) else w
  }

  function Canonical(p: Payload): Payload {
    p.(witnesses := seq(|p.witnesses|, i requires 0 <= i < |p.witnesses| => Blank(p.witnesses[i])))
  }

  function SigningHash(codec: Codec, p: Payload): Bytes {
    codec.keccak(codec.encode(Canonical(p)))
  }

  /** Put the signature in the first witness. */
  function SignedFrame(p: Payload, signature: Bytes): Option<Payload> {
    if |signature| != SIGNATURE_BYTES || |p.witnesses| == 0 then None
    else Some(p.(witnesses := p.witnesses[0 := p.witnesses[0].(signature := signature)]))
  }

  /** Adding the signature leaves what was signed unchanged exactly when the first witness signs the
      transaction itself, or already held that signature. */
  lemma SignatureIsNotSigned(p: Payload, signature: Bytes)
    requires SignedFrame(p, signature).Some?
    ensures Canonical(SignedFrame(p, signature).value) == Canonical(p)
            <==> p.witnesses[0].msg == [] || p.witnesses[0].signature == signature
  {
    var signed := SignedFrame(p, signature).value;
    var a, b := Canonical(signed).witnesses, Canonical(p).witnesses;
    assert a[0] == Blank(signed.witnesses[0]) && b[0] == Blank(p.witnesses[0]);
    if p.witnesses[0].msg == [] || p.witnesses[0].signature == signature {
      assert forall i :: 0 <= i < |a| ==> a[i] == b[i];
    }
  }

  /** Two witnesses of which the digest cannot tell one from the other: only the signature of one that signs this
      very transaction is left out. */
  predicate SameSigned(v: Witness, w: Witness) {
    v.scheme == w.scheme && v.signer == w.signer && v.msg == w.msg && (v.msg != [] ==> v.signature == w.signature)
  }

  /** The signed form covers everything but those signatures. */
  lemma SignedFormCoversAllBut(p: Payload, q: Payload)
    ensures Canonical(p) == Canonical(q) <==>
              && p.chainId == q.chainId && p.nonce == q.nonce && p.sender == q.sender && p.frames == q.frames
              && p.priorityFee == q.priorityFee && p.maxFee == q.maxFee
              && |p.witnesses| == |q.witnesses|
              && forall i :: 0 <= i < |p.witnesses| ==> SameSigned(p.witnesses[i], q.witnesses[i])
  {
    var a, b := Canonical(p).witnesses, Canonical(q).witnesses;
    forall i | 0 <= i < |a| && |a| == |b| ensures a[i] == b[i] <==> SameSigned(p.witnesses[i], q.witnesses[i]) {
      assert a[i] == Blank(p.witnesses[i]) && b[i] == Blank(q.witnesses[i]);
    }
    if |a| == |b| && forall i :: 0 <= i < |a| ==> SameSigned(p.witnesses[i], q.witnesses[i]) { assert a == b; }
  }

  // ---------------------------------------------------------------- pricing and building

  datatype Request = Request(recipient: Address, value: nat, data: Bytes, expectedNonce: Option<nat>,
      reviewed: Option<Review>)

  datatype Review = Review(feeReserve: nat, at: int)

  /** What the node answers about the account, the network and a call, and the clock, at one moment. */
  datatype Chain = Chain(balance: nat, nonce: nat, deployed: bool, baseFee: nat, estimated: nat,
                         trusted: bool, simulates: bool, now: int)

  datatype Price = Price(maxFee: nat, callGas: nat, feeReserve: nat)

  const PRIORITY_FEE: nat := 1000000000

  function QuoteCall(req: Request, at: Chain): Option<Price> {
    var maxFee := 2 * at.baseFee + PRIORITY_FEE;
    var padded := at.estimated * 3 / 2;
    var callGas := if padded > 250000 then padded else 250000;
    if |req.data| > 45000 || maxFee > 3000000000 || callGas > 5000000 then None
    else Some(Price(maxFee, callGas, (1500000 + callGas * 2 + |req.data| * 40) * maxFee))
  }

  function BuildTransfer(codec: Codec, key: Key, req: Request, at: Chain, price: Price): Payload {
    var sender := codec.addressOf(key);
    var deploy := if at.deployed then [] else [Frame(0, 0, codec.factory, 80000, 450000, 0, codec.createAccount(key))];
    Payload(CHAIN_ID, at.nonce, sender,
            deploy + [Frame(1, 3, sender, if at.deployed then 450000 else 415000, 0, 0, []),
                      Frame(2, 0, req.recipient, price.callGas, price.callGas, req.value, req.data)],
            [Witness([], [], [], [])], PRIORITY_FEE, price.maxFee)
  }

  datatype Quote = Quote(key: Key, req: Request, nonce: nat, deployed: bool, price: Price, payload: Payload,
                         digest: Bytes, preparedAt: int)

  /** The reviewed fee is exceeded, or the review too old. */
  predicate Outdated(review: Review, price: Price, now: int) {
    price.feeReserve > review.feeReserve || now - review.at > FRESHNESS_MS
  }

  /** Everything between the public key and the signature; `None` is a thrown error. */
  function PrepareCall(codec: Codec, account: Address, key: Key, req: Request, at: Chain): Option<Quote> {
    if !at.trusted then None else
    var price := QuoteCall(req, at);
    if price.None? then None
    else if req.reviewed.Some? && Outdated(req.reviewed.value, price.value, at.now) then None
    else if at.balance < req.value + price.value.feeReserve then None
    else if req.expectedNonce.Some? && req.expectedNonce.value != at.nonce then None
    else if codec.addressOf(key) != account then None
    else
      var payload := BuildTransfer(codec, key, req, at, price.value);
      Some(Quote(key, req, at.nonce, at.deployed, price.value, payload, SigningHash(codec, payload), at.now))
  }

  datatype Signed = Signed(key: Key, signature: Bytes)

  datatype Record = Record(hash: Bytes, sender: Address, nonce: nat, frameCount: nat, uncertain: bool)

  datatype Tx = Tx(record: Record, payload: Payload)

  /** Everything between the signature and the journal; `None` is a thrown error. */
  function CheckCall(codec: Codec, quote: Quote, signed: Signed, at: Chain): Option<Tx> {
    if at.now - quote.preparedAt > FRESHNESS_MS || signed.key != quote.key || !at.trusted then None
    else if at.nonce != quote.nonce || at.deployed != quote.deployed then None
    else if at.balance < quote.req.value + quote.price.feeReserve then None
    else
      var payload := SignedFrame(quote.payload, signed.signature);
      if payload.None? || !at.simulates then None
      else
        var p := payload.value;
        Some(Tx(Record(codec.keccak(codec.encode(p)), codec.addressOf(quote.key), at.nonce, |p.frames|, false), p))
  }

  /** What a transaction that is about to be posted always satisfies. */
  ghost predicate TxOk(codec: Codec, account: Address, tx: Tx, signatures: set<(Bytes, Bytes)>) {
    && tx.payload.sender == tx.record.sender == account && tx.payload.nonce == tx.record.nonce
    && tx.record.hash == codec.keccak(codec.encode(tx.payload))
    && tx.record.frameCount == |tx.payload.frames|
    && |tx.payload.witnesses| == 1 && |tx.payload.witnesses[0].signature| == SIGNATURE_BYTES
    && (SigningHash(codec, tx.payload), tx.payload.witnesses[0].signature) in signatures
  }

  ghost predicate QuoteOk(codec: Codec, account: Address, q: Quote) {
    exists key, req, at :: PrepareCall(codec, account, key, req, at) == Some(q)
  }

  /** The transaction that passes the checks carries the signature of its own digest. */
  lemma CheckedTxIsOk(codec: Codec, account: Address, q: Quote, signed: Signed, at: Chain,
      signatures: set<(Bytes, Bytes)>)
    requires QuoteOk(codec, account, q) && (q.digest, signed.signature) in signatures
    requires CheckCall(codec, q, signed, at).Some?
    ensures TxOk(codec, account, CheckCall(codec, q, signed, at).value, signatures)
  {
    SignatureIsNotSigned(q.payload, signed.signature);
  }

  function GasLimit(frames: seq<Frame>): nat {
    if frames == [] then 0 else frames[0].executionGas + frames[0].stateGas + GasLimit(frames[1..])
  }

  /** A posted transaction is funded: the balance read just before covers the value and the gas limits of
      every frame at the highest price the transaction offers. */
  lemma PostedTxIsFunded(codec: Codec, account: Address, q: Quote, signed: Signed, at: Chain)
    requires QuoteOk(codec, account, q) && CheckCall(codec, q, signed, at).Some?
    ensures var p := CheckCall(codec, q, signed, at).value.payload;
            && at.balance >= q.req.value + GasLimit(p.frames) * p.maxFee
            && p.frames[|p.frames| - 1].target == q.req.recipient && p.frames[|p.frames| - 1].value == q.req.value
  {
    hide GasLimit, SigningHash, Canonical;
    GasWithinReserve(codec, account, q, signed, at);
  }

  /** The fee that was set aside covers the gas limits of every frame. */
  lemma GasWithinReserve(codec: Codec, account: Address, q: Quote, signed: Signed, at: Chain)
    requires QuoteOk(codec, account, q) && CheckCall(codec, q, signed, at).Some?
    ensures var p := CheckCall(codec, q, signed, at).value.payload;
            GasLimit(p.frames) * p.maxFee <= q.price.feeReserve
  {
    hide GasLimit, SigningHash, Canonical;
    var p := CheckCall(codec, q, signed, at).value.payload;
    var gas, cap := GasLimit(p.frames), 1500000 + q.price.callGas * 2 + |q.req.data| * 40;
    var n := |p.frames|;
    GasOfTwo(p.frames[n - 2..]);
    if n == 3 {
      GasOfThree(p.frames);
    } else {
      assert p.frames[n - 2..] == p.frames;
    }
    assert gas <= cap;
    MulMonotone(gas, cap, p.maxFee);
  }

  lemma GasOfTwo(f: seq<Frame>)
    requires |f| == 2
    ensures GasLimit(f) == f[0].executionGas + f[0].stateGas + f[1].executionGas + f[1].stateGas
  {
    var g := f[1..];
    assert g[0] == f[1] && g[1..] == [];
    assert GasLimit(g) == g[0].executionGas + g[0].stateGas + GasLimit(g[1..]);
  }

  lemma GasOfThree(f: seq<Frame>)
    requires |f| == 3
    ensures GasLimit(f) == f[0].executionGas + f[0].stateGas + GasLimit(f[1..])
  {
  }

  // ---------------------------------------------------------------- receipts

  datatype Receipt = Receipt(hash: Bytes, kind: int, status: Option<int>, block: Option<nat>,
      frames: Option<seq<Option<int>>>)

  datatype Outcome = Pending | Confirmed | Failed

  /** What a receipt says about a record; `None` is a thrown error, which decides nothing. */
  function ReceiptOutcome(receipt: Option<Receipt>, record: Record): Option<Outcome> {
    if receipt.None? then Some(Pending) else
    var r := receipt.value;
    if r.hash != record.hash || r.kind != 6 || r.status.None? || r.block.None? then None
    else if r.status.value != 1 then Some(Failed)
    else if r.frames.None? || |r.frames.value| != record.frameCount then None
    else if exists i :: 0 <= i < |r.frames.value| && r.frames.value[i] != Some(1) then Some(Failed)
    else Some(Confirmed)
  }

  /** The receipt is one of this transaction, included in a block, with a status. */
  predicate Belongs(r: Receipt, record: Record) {
    r.hash == record.hash && r.kind == 6 && r.status.Some? && r.block.Some?
  }

  predicate EveryFrameRan(r: Receipt, record: Record) {
    r.frames.Some? && |r.frames.value| == record.frameCount
    && forall i :: 0 <= i < record.frameCount ==> r.frames.value[i] == Some(1)
  }

  /** A send counts as confirmed exactly when its own receipt says that it and every frame of it succeeded; as failed
      exactly when its receipt says that it or a frame failed; and stays pending exactly without a receipt. */
  lemma OutcomeIsExact(receipt: Option<Receipt>, record: Record)
    ensures var o := ReceiptOutcome(receipt, record);
            && (o == Some(Pending) <==> receipt.None?)
            && (o == Some(Confirmed) <==>
                  receipt.Some? && Belongs(receipt.value, record) && receipt.value.status == Some(1)
                  && EveryFrameRan(receipt.value, record))
            && (o == Some(Failed) <==>
                  receipt.Some? && Belongs(receipt.value, record)
                  && (receipt.value.status != Some(1)
                      || (receipt.value.frames.Some? && |receipt.value.frames.value| == record.frameCount
                          && !EveryFrameRan(receipt.value, record))))
  {
  }
}
