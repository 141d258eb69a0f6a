/** The transaction manager's durable records: evm/txmngr/txmngr_provider/tx.go. */
module TxTypes {

  datatype Option<+T> = None | Some(value: T)

  type Id = string
  type Address = nat
  type ChainId = nat

  /** Section "Specification" of EIP-2681: a nonce is below 2^64 - 1, so nonce + 1 does not wrap. */
  const NONCE_LIMIT: nat := 0xFFFF_FFFF_FFFF_FFFF
  type Nonce = n: nat | n < NONCE_LIMIT

  /** One nonce sequence: a sender on a chain. */
  datatype Lane = Lane(sender: Address, chain: ChainId)

  /** What the caller asked to execute; a non-empty authorization list makes it a set-code transaction. */
  datatype Payload = Payload(to: Address, data: seq<nat>, value: nat, gasLimit: nat, auths: seq<nat>)

  datatype Fees = Legacy(gasPrice: nat) | SetCode(tipCap: nat, feeCap: nat)

  /** A signed transaction. Signing is deterministic and Keccak is collision free,
      so the envelope also stands for its own hash. */
  datatype Envelope = Envelope(lane: Lane, nonce: Nonce, payload: Payload, fees: Fees)
  type Hash = Envelope

  datatype Attempt = Attempt(txId: Id, hash: Hash, nonce: Nonce, tx: Envelope, createdAt: nat)

  datatype Status = Pending | Processing | Confirming | Succeed | Failed | Errored

  datatype Receipt = Receipt(hash: Hash, ok: bool)

  datatype Transaction = Transaction(
    id: Id,
    intent: Option<string>,
    operationKey: Option<string>,
    payloadHash: Option<string>,
    lane: Lane,
    payload: Payload,
    assignedNonce: Option<Nonce>,
    tx: Option<Envelope>,
    receipt: Option<Receipt>,
    status: Status,
    nextActionAt: nat,
    broadcastPending: bool,
    rejectedAttempt: Option<Hash>,
    nonceConsumedAt: Option<nat>,
    notifiedAt: Option<nat>,
    notificationAttempts: nat,
    nextNotificationAt: nat,
    updatedAt: nat,
    createdAt: nat)
  {
    predicate IsCompleted() {
      status == Errored || status == Failed || status == Succeed
    }

    predicate HasIntent() {
      intent.Some? && intent.value != ""
    }

    /** The row without its delivery bookkeeping. */
    function Core(): Transaction {
      this.(notifiedAt := None, notificationAttempts := 0, nextNotificationAt := 0, updatedAt := 0)
    }
  }

  /** The fields no write of the manager may change. */
  predicate SameIdentity(a: Transaction, b: Transaction) {
    && a.id == b.id && a.intent == b.intent && a.operationKey == b.operationKey
    && a.payloadHash == b.payloadHash && a.lane == b.lane && a.payload == b.payload
    && a.createdAt == b.createdAt
  }

  const MAX_FEE_REPLACEMENTS: nat := 5

  /** Ordered node answers to SendTransaction, already classified. */
  datatype Disposition =
    | Accepted
    | AlreadyKnown
    | NonceConsumed
    | FeeRejected
    | RejectedRetryable
    | RejectedPermanent
    | Ambiguous
  {
    /** The node took a definite position on this exact envelope. */
    predicate Definite() {
      this != Ambiguous && this != RejectedRetryable
    }
  }

  datatype ReceiptAnswer = FoundReceipt(txHash: Hash, status: nat) | NoReceipt | ReceiptError
  datatype LookupAnswer = FoundTransaction(txHash: Hash) | NoTransaction | LookupError
}
