/** Applying one message to the world: checks, gas purchase, execution, refund and fees. */
module StateTransitions {
  import opened Options
  import opened Words
  import opened Gas
  import opened Worlds

  /** An EIP-7702 authorization; authority is what its signature recovers to, if it does. */
  datatype Auth = Auth(chainId: nat, target: Address, nonce: Word, authority: Option<Address>)

  /** blobHashes tells for each hash whether its version is valid. */
  datatype Message = Message(to: Option<Address>, from: Address, nonce: Word, value: nat, gasLimit: Word,
                             gasPrice: nat, gasFeeCap: nat, gasTipCap: nat, data: seq<Byte>,
                             accessAddresses: nat, accessKeys: nat, blobGasFeeCap: nat, blobHashes: Option<seq<bool>>,
                             auths: Option<seq<Auth>>, skipNonceChecks: bool, skipFromEOACheck: bool)

  datatype Rules = Rules(homestead: bool, istanbul: bool, london: bool, shanghai: bool, cancun: bool, prague: bool,
                         osaka: bool)

  datatype Env = Env(chainId: nat, coinbase: Address, baseFee: nat, blobBaseFee: nat, noBaseFee: bool, rules: Rules)

  datatype TxError = NoError | NonceTooHigh | NonceTooLow | NonceMax | SenderNoEOA | FeeCapVeryHigh | TipVeryHigh
                   | TipAboveFeeCap | FeeCapTooLow | BlobTxCreate | MissingBlobHashes | TooManyBlobs | BlobHashVersion
                   | BlobFeeCapTooLow | SetCodeTxCreate | EmptyAuthList | GasLimitTooHigh | InsufficientFunds
                   | GasLimitReached | IntrinsicOverflow | IntrinsicGasTooLow | FloorOverflow | FloorGasTooLow
                   | InsufficientFundsForTransfer | MaxInitCodeSizeExceeded

  datatype ExecutionResult = ExecutionResult(usedGas: Word, maxUsedGas: Word, failed: bool)

  /** What the virtual machine returns: the new world, leftover gas, refund counter, and how much it burned. */
  datatype EvmResult = EvmResult(world: World, gasLeft: nat, refund: nat, burned: nat, failed: bool)

  /** The virtual machine: message, world, gas and refund counter to its result. */
  type Evm = (Message, World, nat, nat) -> EvmResult

  /**
   All that is assumed of the virtual machine. A creation takes the creator's nonce itself,
   unless that nonce is exhausted or the creator cannot pay the value.
   */
  ghost predicate EvmSound(msg: Message, w: World, gas: nat, r: EvmResult) {
    && r.gasLeft <= gas
    && Total(r.world) + r.burned == Total(w)
    && (NoncesFit(w) ==> NoncesFit(r.world)) && NoncesGrow(w, r.world)
    && (msg.to.None? && Get(w, msg.from).nonce < MAX_UINT64 && msg.value <= Get(w, msg.from).balance ==>
          Get(w, msg.from).nonce < Get(r.world, msg.from).nonce)
  }

  ghost predicate Sound(evm: Evm) {
    forall m, w, g, c :: EvmSound(m, w, g, evm(m, w, g, c))
  }

  /** The price a transaction pays per gas once the base fee is known. */
  function EffectivePrice(tipCap: nat, feeCap: nat, baseFee: nat): nat {
    if tipCap + baseFee > feeCap then feeCap else tipCap + baseFee
  }

  function BlobGasUsed(msg: Message): nat {
    if msg.blobHashes.Some? then |msg.blobHashes.value| * BLOB_GAS_PER_BLOB else 0
  }

  function BlobFee(msg: Message, env: Env): nat {
    if env.rules.cancun then BlobGasUsed(msg) * env.blobBaseFee else 0
  }

  /** What buying the gas costs the sender up front. */
  function UpFront(msg: Message, env: Env): nat {
    msg.gasLimit * msg.gasPrice + BlobFee(msg, env)
  }

  /** The same as a 256-bit word, as it is debited. */
  function Debit(msg: Message, env: Env): nat {
    UpFront(msg, env) % TWO_256
  }

  function Debited(w: World, msg: Message, env: Env): World {
    SubBalance(w, msg.from, Debit(msg, env))
  }

  /** The balance a sender must have: the caps instead of the prices, and the value. */
  function Required(msg: Message, env: Env): nat {
    msg.gasLimit * msg.gasFeeCap + msg.value + if env.rules.cancun then BlobGasUsed(msg) * msg.blobGasFeeCap else 0
  }

  /** From Cancun on every blob costs 131072 times the blob base fee, and up to its fee cap must be there. */
  lemma BlobsCost(msg: Message, env: Env, blobs: nat)
    requires blobs == if msg.blobHashes.Some? && env.rules.cancun then |msg.blobHashes.value| else 0
    ensures UpFront(msg, env) == msg.gasLimit * msg.gasPrice + 131072 * blobs * env.blobBaseFee
    ensures Required(msg, env) == msg.gasLimit * msg.gasFeeCap + 131072 * blobs * msg.blobGasFeeCap + msg.value
  {
  }

  /** The fee conditions an accepted message meets after London, with fee checks on. */
  ghost predicate FeesChecked(msg: Message, env: Env) {
    && msg.gasTipCap <= msg.gasFeeCap < TWO_256 && env.baseFee <= msg.gasFeeCap
    && (env.rules.cancun && BlobGasUsed(msg) > 0 ==> env.blobBaseFee <= msg.blobGasFeeCap)
  }

  /** The price lies between base fee and cap, and what is paid leaves the value to transfer. */
  lemma UpFrontIsCovered(msg: Message, env: Env)
    requires FeesChecked(msg, env) && msg.gasPrice == EffectivePrice(msg.gasTipCap, msg.gasFeeCap, env.baseFee)
    ensures env.baseFee <= msg.gasPrice <= msg.gasFeeCap
    ensures UpFront(msg, env) + msg.value <= Required(msg, env)
  {
    MulMonotone(msg.gasPrice, msg.gasFeeCap, msg.gasLimit);
    if BlobGasUsed(msg) > 0 && env.rules.cancun {
      MulMonotone(env.blobBaseFee, msg.blobGasFeeCap, BlobGasUsed(msg));
    }
  }

  /** The refund counter capped by a quotient of the gas used. */
  function Refund(used: nat, counter: nat, london: bool): nat {
    var cap := used / if london then REFUND_QUOTIENT_EIP3529 else REFUND_QUOTIENT;
    if cap > counter then counter else cap
  }

  /** The refund is the whole counter or, if that is less, a fifth of the gas used, a half before London. */
  lemma RefundIs(used: nat, counter: nat, london: bool)
    ensures var r, q := Refund(used, counter, london), if london then 5 else 2;
            r <= counter && q * r <= used && (r == counter || q * (r + 1) > used)
  {
  }

  /** The gas left for the sender once refund and floor are settled. */
  function Settled(limit: nat, left: nat, counter: nat, rules: Rules, floor: nat): nat
    requires left <= limit && floor <= limit
  {
    var remaining := left + Refund(limit - left, counter, rules.london);
    if rules.prague && limit - remaining < floor then limit - floor else remaining
  }

  /** Whatever the refund counter and the leftover gas: at least the floor and at most the limit is used. */
  lemma SettledBounds(limit: nat, left: nat, counter: nat, rules: Rules, floor: nat)
    requires left <= limit && floor <= limit
    ensures Settled(limit, left, counter, rules, floor) <= limit
    ensures rules.prague ==> floor <= limit - Settled(limit, left, counter, rules, floor)
    ensures rules.london ==> 5 * (limit - Settled(limit, left, counter, rules, floor)) >= 4 * (limit - left)
  {
  }

  /** The gas used: what the machine took less the refund, but after Prague not less than the floor. */
  lemma UsedIs(limit: nat, left: nat, counter: nat, rules: Rules, floor: nat)
    requires left <= limit && floor <= limit
    ensures var taken := limit - left - Refund(limit - left, counter, rules.london);
            limit - Settled(limit, left, counter, rules, floor) ==
            if rules.prague && taken < floor then floor else taken
  {
  }

  /** What the sender loses and the coinbase gains differ by the base fee on the gas used. */
  lemma FeesBalance(limit: nat, remaining: nat, price: nat, baseFee: nat)
    requires remaining <= limit && baseFee <= price
    ensures limit * price == remaining * price + (limit - remaining) * (price - baseFee) + (limit - remaining) * baseFee
  {
    var used := limit - remaining;
    assert limit * price == remaining * price + used * price;
    assert used * price == used * (price - baseFee) + used * baseFee;
  }

  /** A nonce taken by a transaction or an authorization of an account. */
  type Consumed = (Address, nat)

  /** Taken nonces lie below the account's current nonce, and none was taken twice. */
  ghost predicate LedgerOk(consumed: seq<Consumed>, w: World) {
    && (forall i | 0 <= i < |consumed| :: consumed[i].1 < Get(w, consumed[i].0).nonce)
    && (forall i, j | 0 <= i < j < |consumed| :: consumed[i] != consumed[j])
  }

  /** Taking the current nonce of an account and raising it keeps the ledger. */
  lemma ConsumeKeepsLedger(consumed: seq<Consumed>, w: World, w': World, a: Address)
    requires LedgerOk(consumed, w) && NoncesGrow(w, w') && Get(w', a).nonce > Get(w, a).nonce
    ensures LedgerOk(consumed + [(a, Get(w, a).nonce)], w')
  {
    var c := consumed + [(a, Get(w, a).nonce)];
    forall i | 0 <= i < |c| ensures c[i].1 < Get(w', c[i].0).nonce {
      assert Get(w, c[i].0).nonce <= Get(w', c[i].0).nonce;
    }
  }

  /** Non-delegation code is untouched. */
  ghost predicate ContractsKept(w: World, w': World) {
    forall a :: Get(w, a).code == Contract ==> Get(w', a).code == Contract
  }

  /** The mutable world: accounts, the refund counter, and a record of the nonces taken. */
  class StateDB {
    var world: World
    var refund: nat
    ghost var consumed: seq<Consumed>

    constructor (w: World)
      ensures world == w && refund == 0 && consumed == []
    {
      world := w;
      refund := 0;
      consumed := [];
    }
  }

  /** Whether an authorization is valid in a world: chain, nonce range, signature, code and nonce. */
  predicate AuthValid(auth: Auth, chainId: nat, w: World) {
    && (auth.chainId == 0 || auth.chainId == chainId)
    && auth.nonce < MAX_UINT64
    && auth.authority.Some?
    && Get(w, auth.authority.value).code != Contract
    && Get(w, auth.authority.value).nonce == auth.nonce
  }

  /** The account of the authority after a valid authorization; the zero address clears the delegation. */
  function Authorized(account: Account, auth: Auth): Account {
    account.(nonce := auth.nonce + 1, code := if auth.target == 0 then NoCode else Delegation(auth.target))
  }

  /** An invalid authorization changes nothing; a valid one on an existing account earns a refund. */
  function AfterAuth(w: World, auth: Auth, chainId: nat): World {
    if AuthValid(auth, chainId, w) then w[auth.authority.value := Authorized(Get(w, auth.authority.value), auth)] else w
  }

  function AuthRefund(w: World, auth: Auth, chainId: nat): nat {
    if AuthValid(auth, chainId, w) && auth.authority.value in w then CALL_NEW_ACCOUNT_GAS - TX_AUTH_TUPLE_GAS else 0
  }

  /**
   An authorization for another chain, with the last nonce, without a signer, or by an account
   with contract code or another nonce has no effect. Any other one raises the nonce of the
   authority, sets or clears its delegation, and earns 12500 gas if the account exists.
   */
  lemma AuthorizationIs(w: World, auth: Auth, chainId: nat)
    ensures var w', a := AfterAuth(w, auth, chainId), auth.authority;
            if (auth.chainId != 0 && auth.chainId != chainId) || auth.nonce >= MAX_UINT64 || a.None?
               || Get(w, a.value).code == Contract || Get(w, a.value).nonce != auth.nonce
            then !AuthValid(auth, chainId, w) && w' == w && AuthRefund(w, auth, chainId) == 0
            else
              && AuthValid(auth, chainId, w)
              && Get(w', a.value).balance == Get(w, a.value).balance && Get(w', a.value).nonce == auth.nonce + 1
              && Get(w', a.value).code == (if auth.target == 0 then NoCode else Delegation(auth.target))
              && (forall b | b != a.value :: Get(w', b) == Get(w, b))
              && AuthRefund(w, auth, chainId) == if a.value in w then 12500 else 0
  {
  }

  function AfterAuths(w: World, auths: seq<Auth>, chainId: nat): World {
    if auths == [] then w else AfterAuth(AfterAuths(w, auths[..|auths| - 1], chainId), auths[|auths| - 1], chainId)
  }

  function AuthRefunds(w: World, auths: seq<Auth>, chainId: nat): nat {
    if auths == [] then 0
    else
      var before := auths[..|auths| - 1];
      AuthRefunds(w, before, chainId) + AuthRefund(AfterAuths(w, before, chainId), auths[|auths| - 1], chainId)
  }

  /** Authorizations are applied one after the other: each meets the world the ones before it left. */
  lemma {:induction false} AuthsApplyInOrder(w: World, first: seq<Auth>, second: seq<Auth>, chainId: nat)
    ensures var w' := AfterAuths(w, first, chainId);
            && AfterAuths(w, first + second, chainId) == AfterAuths(w', second, chainId)
            && AuthRefunds(w, first + second, chainId) ==
               AuthRefunds(w, first, chainId) + AuthRefunds(w', second, chainId)
    decreases |second|
  {
    if second == [] {
      assert first + second == first;
    } else {
      var before := second[..|second| - 1];
      AuthsApplyInOrder(w, first, before, chainId);
      assert (first + second)[..|first + second| - 1] == first + before;
    }
  }

  /** The nonces the valid ones among the authorizations take, in order. */
  function Taken(w: World, auths: seq<Auth>, chainId: nat): seq<Consumed> {
    if auths == [] then []
    else
      var before, last := auths[..|auths| - 1], auths[|auths| - 1];
      Taken(w, before, chainId) +
      if AuthValid(last, chainId, AfterAuths(w, before, chainId)) then [(last.authority.value, last.nonce)] else []
  }

  lemma {:induction false} TakenInOrder(w: World, first: seq<Auth>, second: seq<Auth>, chainId: nat)
    ensures Taken(w, first + second, chainId) ==
            Taken(w, first, chainId) + Taken(AfterAuths(w, first, chainId), second, chainId)
    decreases |second|
  {
    if second == [] {
      assert first + second == first;
    } else {
      var before := second[..|second| - 1];
      TakenInOrder(w, first, before, chainId);
      AuthsApplyInOrder(w, first, before, chainId);
      assert (first + second)[..|first + second| - 1] == first + before;
    }
  }

  /** All nonces a message takes: the sender's, then those of the authorizations a call carries. */
  function TakenBy(w: World, msg: Message, env: Env): seq<Consumed> {
    [(msg.from, Get(w, msg.from).nonce)] + if msg.to.None? then [] else Taken(Counted(w, msg), Auths(msg), env.chainId)
  }

  /** The authorizations a call carries. */
  function Auths(msg: Message): seq<Auth> {
    if msg.auths.Some? then msg.auths.value else []
  }

  /** The world and refund counter the machine starts with: calls have their nonce taken and authorizations applied. */
  function Prepared(w: World, msg: Message, env: Env): World {
    if msg.to.None? then w else AfterAuths(Counted(w, msg), Auths(msg), env.chainId)
  }

  function PreparedRefund(w: World, refund: nat, msg: Message, env: Env): nat {
    if msg.to.None? then refund else refund + AuthRefunds(Counted(w, msg), Auths(msg), env.chainId)
  }

  function Counted(w: World, msg: Message): World {
    SetNonce(w, msg.from, (Get(w, msg.from).nonce + 1) % TWO_64)
  }

  /** The nonces and code a message must find, in the order the checks are made. */
  function SenderError(msg: Message, w: World): TxError {
    var sender := Get(w, msg.from);
    if !msg.skipNonceChecks && sender.nonce < msg.nonce then NonceTooHigh
    else if !msg.skipNonceChecks && sender.nonce > msg.nonce then NonceTooLow
    else if !msg.skipNonceChecks && sender.nonce == MAX_UINT64 then NonceMax
    else if !msg.skipFromEOACheck && sender.code == Contract then SenderNoEOA
    else NoError
  }

  function FeeError(msg: Message, env: Env): TxError {
    if !env.rules.london || (env.noBaseFee && msg.gasFeeCap == 0 && msg.gasTipCap == 0) then NoError
    else if msg.gasFeeCap >= TWO_256 then FeeCapVeryHigh
    else if msg.gasTipCap >= TWO_256 then TipVeryHigh
    else if msg.gasFeeCap < msg.gasTipCap then TipAboveFeeCap
    else if msg.gasFeeCap < env.baseFee then FeeCapTooLow
    else NoError
  }

  function BlobError(msg: Message, env: Env): TxError {
    if msg.blobHashes.Some? && msg.to.None? then BlobTxCreate
    else if msg.blobHashes.Some? && |msg.blobHashes.value| == 0 then MissingBlobHashes
    else if msg.blobHashes.Some? && env.rules.osaka && |msg.blobHashes.value| > BLOB_TX_MAX_BLOBS then TooManyBlobs
    else if msg.blobHashes.Some? && false in msg.blobHashes.value then BlobHashVersion
    else if env.rules.cancun && BlobGasUsed(msg) > 0 && !(env.noBaseFee && msg.blobGasFeeCap == 0)
            && msg.blobGasFeeCap < env.blobBaseFee then BlobFeeCapTooLow
    else NoError
  }

  function FormError(msg: Message, env: Env): TxError {
    if msg.auths.Some? && msg.to.None? then SetCodeTxCreate
    else if msg.auths.Some? && |msg.auths.value| == 0 then EmptyAuthList
    else if env.rules.osaka && msg.gasLimit > MAX_TX_GAS then GasLimitTooHigh
    else NoError
  }

  /** The sender has the required balance, and the block the gas. */
  function FundsError(msg: Message, env: Env, w: World, gas: nat): TxError {
    if Required(msg, env) >= TWO_256 || Get(w, msg.from).balance < Required(msg, env) then InsufficientFunds
    else if gas < msg.gasLimit then GasLimitReached
    else NoError
  }

  /** The first error, if any. */
  function Either(first: TxError, second: TxError): TxError {
    if first.NoError? then second else first
  }

  /** Why the gas for a message cannot be bought. */
  function PurchaseError(msg: Message, env: Env, w: World, gas: nat): TxError {
    Either(SenderError(msg, w), Either(FeeError(msg, env), Either(BlobError(msg, env),
           Either(FormError(msg, env), FundsError(msg, env, w, gas)))))
  }

  /** Passing all checks means the fee conditions hold and the sender can pay. */
  lemma PurchaseMeans(msg: Message, env: Env, w: World, gas: nat)
    requires PurchaseError(msg, env, w, gas).NoError?
    ensures env.rules.london && !env.noBaseFee ==> FeesChecked(msg, env)
    ensures Required(msg, env) < TWO_256 && Required(msg, env) <= Get(w, msg.from).balance && msg.gasLimit <= gas
    ensures !msg.skipNonceChecks ==> Get(w, msg.from).nonce == msg.nonce != MAX_UINT64
  {
  }

  /** A message passes all checks if and only if it meets these conditions. */
  lemma AcceptedIff(msg: Message, env: Env, w: World, gas: nat)
    ensures var sender := Get(w, msg.from);
            PurchaseError(msg, env, w, gas).NoError? <==>
            && (msg.skipNonceChecks || sender.nonce == msg.nonce < MAX_UINT64)
            && (msg.skipFromEOACheck || sender.code != Contract)
            && (env.rules.london && !(env.noBaseFee && msg.gasFeeCap == msg.gasTipCap == 0) ==>
                  msg.gasTipCap <= msg.gasFeeCap < TWO_256 && env.baseFee <= msg.gasFeeCap)
            && (msg.blobHashes.Some? ==>
                  && msg.to.Some? && |msg.blobHashes.value| >= 1 && (env.rules.osaka ==> |msg.blobHashes.value| <= 6)
                  && forall i | 0 <= i < |msg.blobHashes.value| :: msg.blobHashes.value[i])
            && (env.rules.cancun && BlobGasUsed(msg) > 0 && !(env.noBaseFee && msg.blobGasFeeCap == 0) ==>
                  env.blobBaseFee <= msg.blobGasFeeCap)
            && (msg.auths.Some? ==> msg.to.Some? && |msg.auths.value| >= 1)
            && (env.rules.osaka ==> msg.gasLimit <= 0x100_0000)
            && Required(msg, env) < TWO_256 && Required(msg, env) <= sender.balance && msg.gasLimit <= gas
  {
  }

  /** Which error is given: that of the first of these conditions that holds. */
  lemma FirstErrorIs(msg: Message, env: Env, w: World, gas: nat)
    ensures var sender, blobs, auths := Get(w, msg.from), msg.blobHashes, msg.auths;
            var free := env.noBaseFee && msg.gasFeeCap == msg.gasTipCap == 0;
            var nonce, fees := !msg.skipNonceChecks, env.rules.london && !free;
            PurchaseError(msg, env, w, gas) ==
            if nonce && msg.nonce > sender.nonce then NonceTooHigh
            else if nonce && msg.nonce < sender.nonce then NonceTooLow
            else if nonce && msg.nonce == MAX_UINT64 then NonceMax
            else if !msg.skipFromEOACheck && sender.code.Contract? then SenderNoEOA
            else if fees && msg.gasFeeCap >= TWO_256 then FeeCapVeryHigh
            else if fees && msg.gasTipCap >= TWO_256 then TipVeryHigh
            else if fees && msg.gasTipCap > msg.gasFeeCap then TipAboveFeeCap
            else if fees && env.baseFee > msg.gasFeeCap then FeeCapTooLow
            else if blobs.Some? && msg.to.None? then BlobTxCreate
            else if blobs == Some([]) then MissingBlobHashes
            else if blobs.Some? && env.rules.osaka && |blobs.value| > 6 then TooManyBlobs
            else if blobs.Some? && false in blobs.value then BlobHashVersion
            else if blobs.Some? && env.rules.cancun && !(env.noBaseFee && msg.blobGasFeeCap == 0)
                    && env.blobBaseFee > msg.blobGasFeeCap then BlobFeeCapTooLow
            else if auths.Some? && msg.to.None? then SetCodeTxCreate
            else if auths == Some([]) then EmptyAuthList
            else if env.rules.osaka && msg.gasLimit > 0x100_0000 then GasLimitTooHigh
            else if Required(msg, env) >= TWO_256 || Required(msg, env) > sender.balance then InsufficientFunds
            else if gas < msg.gasLimit then GasLimitReached
            else NoError
  {
  }

  /** Why a message whose gas is bought is rejected nevertheless. */
  function ChargeError(msg: Message, env: Env, w: World): TxError {
    Either(IntrinsicError(msg, env), Either(FloorError(msg, env), TransferError(msg, env, w)))
  }

  function IntrinsicError(msg: Message, env: Env): TxError {
    if DataCost(msg.data, msg.to.None?, env.rules.homestead, env.rules.istanbul, env.rules.shanghai) > MAX_UINT64
    then IntrinsicOverflow
    else if msg.gasLimit < Intrinsic(msg, env) then IntrinsicGasTooLow
    else NoError
  }

  function FloorError(msg: Message, env: Env): TxError {
    if Floor(msg, env) > MAX_UINT64 then FloorOverflow
    else if msg.gasLimit < Floor(msg, env) then FloorGasTooLow
    else NoError
  }

  function TransferError(msg: Message, env: Env, w: World): TxError {
    if msg.value >= TWO_256 || Get(w, msg.from).balance < msg.value then InsufficientFundsForTransfer
    else if env.rules.shanghai && msg.to.None? && |msg.data| > MAX_INIT_CODE_SIZE then MaxInitCodeSizeExceeded
    else NoError
  }

  /** Which error is given once the gas is bought: that of the first of these conditions that holds. */
  lemma ChargeErrorIs(msg: Message, env: Env, w: World)
    ensures var cost := DataCost(msg.data, msg.to.None?, env.rules.homestead, env.rules.istanbul, env.rules.shanghai);
            ChargeError(msg, env, w) ==
            if cost >= TWO_64 then IntrinsicOverflow
            else if msg.gasLimit < Intrinsic(msg, env) then IntrinsicGasTooLow
            else if Floor(msg, env) >= TWO_64 then FloorOverflow
            else if msg.gasLimit < Floor(msg, env) then FloorGasTooLow
            else if msg.value >= TWO_256 || msg.value > Get(w, msg.from).balance then InsufficientFundsForTransfer
            else if env.rules.shanghai && msg.to.None? && |msg.data| > 49152 then MaxInitCodeSizeExceeded
            else NoError
  {
  }

  /** Why a message is rejected in a world, with so much gas left in the block. */
  function Rejection(msg: Message, env: Env, w: World, gas: nat): TxError {
    Either(PurchaseError(msg, env, w, gas), ChargeError(msg, env, Debited(w, msg, env)))
  }

  class StateTransition {
    const msg: Message
    const env: Env
    const gp: GasPool
    const state: StateDB
    var gasRemaining: Word
    var initialGas: Word

    constructor (msg: Message, env: Env, gp: GasPool, state: StateDB)
      ensures this.msg == msg && this.env == env && this.gp == gp && this.state == state
      ensures gasRemaining == initialGas == 0
    {
      this.msg, this.env, this.gp, this.state := msg, env, gp, state;
      gasRemaining, initialGas := 0, 0;
    }

    /** Checks the funds against the caps, takes the gas from the pool and debits the actual price. */
    method BuyGas() returns (err: TxError)
      modifies this, gp, state`world
      ensures err == FundsError(msg, env, old(state.world), old(gp.gas))
      ensures err.NoError? ==> gasRemaining == initialGas == msg.gasLimit
      ensures err.NoError? ==> old(gp.gas) >= msg.gasLimit && gp.gas == old(gp.gas) - msg.gasLimit
      ensures err.NoError? ==> state.world == Debited(old(state.world), msg, env)
      ensures !err.NoError? ==> state.world == old(state.world) && gp.gas == old(gp.gas)
    {
      var want := Required(msg, env);
      if want >= TWO_256 {
        return InsufficientFunds;
      }
      if Get(state.world, msg.from).balance < want {
        return InsufficientFunds;
      }
      var ok := gp.SubGas(msg.gasLimit);
      if !ok {
        return GasLimitReached;
      }
      gasRemaining, initialGas := msg.gasLimit, msg.gasLimit;
      state.world := Debited(state.world, msg, env);
      return NoError;
    }

    /** Buys the gas if and only if every check passes; the first failing check names the error. */
    method PreCheck() returns (err: TxError)
      modifies this, gp, state`world
      ensures err == PurchaseError(msg, env, old(state.world), old(gp.gas))
      ensures err.NoError? ==> gasRemaining == initialGas == msg.gasLimit
      ensures err.NoError? ==> gp.gas == old(gp.gas) - msg.gasLimit
      ensures err.NoError? ==> state.world == Debited(old(state.world), msg, env)
      ensures !err.NoError? ==> state.world == old(state.world) && gp.gas == old(gp.gas)
    {
      err := SenderError(msg, state.world);
      if err.NoError? {
        err := FeeError(msg, env);
      }
      if err.NoError? {
        err := BlobError(msg, env);
      }
      if err.NoError? {
        err := FormError(msg, env);
      }
      if err.NoError? {
        err := BuyGas();
      }
    }

    /** Applies one authorization if it is valid, and otherwise does nothing. */
    method ApplyAuthorization(auth: Auth) returns (applied: bool)
      modifies state
      ensures applied <==> AuthValid(auth, env.chainId, old(state.world))
      ensures state.world == AfterAuth(old(state.world), auth, env.chainId)
      ensures state.refund == old(state.refund) + AuthRefund(old(state.world), auth, env.chainId)
      ensures state.consumed == old(state.consumed) + if applied then [(auth.authority.value, auth.nonce)] else []
    {
      if !AuthValid(auth, env.chainId, state.world) {
        return false;
      }
      var authority := auth.authority.value;
      if authority in state.world {
        state.refund := state.refund + (CALL_NEW_ACCOUNT_GAS - TX_AUTH_TUPLE_GAS);
      }
      state.world := SetNonce(state.world, authority, auth.nonce + 1);
      state.world := SetCode(state.world, authority, if auth.target == 0 then NoCode else Delegation(auth.target));
      state.consumed := state.consumed + [(authority, auth.nonce)];
      return true;
    }

    /** Applies the authorizations in order, skipping invalid ones. */
    method ApplyAuthorizations(auths: seq<Auth>)
      requires NoncesFit(state.world)
      modifies state
      ensures state.world == AfterAuths(old(state.world), auths, env.chainId)
      ensures state.refund == old(state.refund) + AuthRefunds(old(state.world), auths, env.chainId)
      ensures NoncesFit(state.world) && NoncesGrow(old(state.world), state.world)
      ensures old(LedgerOk(state.consumed, state.world)) ==> LedgerOk(state.consumed, state.world)
      ensures state.consumed == old(state.consumed) + Taken(old(state.world), auths, env.chainId)
      ensures Total(state.world) == Total(old(state.world))
      ensures ContractsKept(old(state.world), state.world)
    {
      for i := 0 to |auths|
        invariant state.world == AfterAuths(old(state.world), auths[..i], env.chainId)
        invariant state.refund == old(state.refund) + AuthRefunds(old(state.world), auths[..i], env.chainId)
        invariant NoncesFit(state.world) && NoncesGrow(old(state.world), state.world)
        invariant old(LedgerOk(state.consumed, state.world)) ==> LedgerOk(state.consumed, state.world)
        invariant state.consumed == old(state.consumed) + Taken(old(state.world), auths[..i], env.chainId)
        invariant Total(state.world) == Total(old(state.world))
        invariant ContractsKept(old(state.world), state.world)
      {
        ghost var w, c := state.world, state.consumed;
        assert auths[..i + 1][..i] == auths[..i];
        var applied := ApplyAuthorization(auths[i]);
        if applied {
          AuthorizedKeeps(w, c, auths[i], env.chainId, state.world);
        }
      }
      assert auths[..|auths|] == auths;
    }

    /** The intrinsic gas, checked against what was bought. */
    method IntrinsicCost() returns (err: TxError, gas: Word)
      requires |msg.data| <= MAX_UINT64
      ensures err == IntrinsicError(msg, env)
      ensures err.NoError? ==> gas == Intrinsic(msg, env)
    {
      var g := IntrinsicGas(msg.data, msg.accessAddresses, msg.accessKeys, |Auths(msg)|, msg.to.None?,
                            env.rules.homestead, env.rules.istanbul, env.rules.shanghai);
      if g.GasUintOverflow? {
        return IntrinsicOverflow, 0;
      }
      if msg.gasLimit < g.gas {
        return IntrinsicGasTooLow, 0;
      }
      return NoError, g.gas;
    }

    /** The floor gas, checked against the limit; 0 before Prague. */
    method FloorCost() returns (err: TxError, floor: Word)
      ensures err == FloorError(msg, env)
      ensures err.NoError? ==> floor == Floor(msg, env)
    {
      if env.rules.prague {
        var f := FloorDataGas(msg.data);
        if f.GasUintOverflow? {
          return FloorOverflow, 0;
        }
        if msg.gasLimit < f.gas {
          return FloorGasTooLow, 0;
        }
        return NoError, f.gas;
      }
      return NoError, 0;
    }

    /** Charges the intrinsic gas and checks floor, transfer and init code. */
    method ChargeIntrinsic() returns (err: TxError, floor: Word)
      requires gasRemaining == initialGas == msg.gasLimit && |msg.data| <= MAX_UINT64
      modifies `gasRemaining
      ensures err == ChargeError(msg, env, state.world)
      ensures err.NoError? ==> gasRemaining == msg.gasLimit - Intrinsic(msg, env) && floor == Floor(msg, env)
    {
      var gas;
      floor := 0;
      err, gas := IntrinsicCost();
      if !err.NoError? {
        return;
      }
      err, floor := FloorCost();
      if !err.NoError? {
        return;
      }
      gasRemaining := gasRemaining - gas;
      if msg.value >= TWO_256 {
        return InsufficientFundsForTransfer, floor;
      }
      if msg.value != 0 && Get(state.world, msg.from).balance < msg.value {
        return InsufficientFundsForTransfer, floor;
      }
      if env.rules.shanghai && msg.to.None? && |msg.data| > MAX_INIT_CODE_SIZE {
        return MaxInitCodeSizeExceeded, floor;
      }
      return NoError, floor;
    }

    /** All checks, the gas purchase and the intrinsic gas; nonces stay as they are. */
    method Begin() returns (err: TxError, floor: Word)
      requires |msg.data| <= MAX_UINT64
      modifies this, gp, state`world
      ensures err == Rejection(msg, env, old(state.world), old(gp.gas))
      ensures err.NoError? ==> initialGas == msg.gasLimit && gasRemaining == msg.gasLimit - Intrinsic(msg, env)
      ensures err.NoError? ==> gp.gas == old(gp.gas) - msg.gasLimit && floor == Floor(msg, env)
      ensures err.NoError? ==> state.world == Debited(old(state.world), msg, env)
      ensures err.NoError? ==> msg.value <= Get(state.world, msg.from).balance
      ensures err.NoError? && !msg.skipNonceChecks ==> Get(old(state.world), msg.from).nonce == msg.nonce != MAX_UINT64
      ensures forall a :: Get(state.world, a).nonce == Get(old(state.world), a).nonce
      ensures Accountable(msg, env) && Total(old(state.world)) < TWO_256 ==> err != InsufficientFundsForTransfer
    {
      floor := 0;
      ghost var w0 := state.world;
      err := PreCheck();
      if !err.NoError? {
        return;
      }
      PurchaseMeans(msg, env, w0, old(gp.gas));
      if Accountable(msg, env) && Total(w0) < TWO_256 {
        PurchaseIsExact(w0, msg, env);
      }
      err, floor := ChargeIntrinsic();
    }

    /** Calls: takes the sender's nonce and applies the authorizations before the machine runs. */
    method PrepareCall()
      requires NoncesFit(state.world) && msg.to.Some?
      modifies state
      ensures state.world == Prepared(old(state.world), msg, env)
      ensures state.refund == PreparedRefund(old(state.world), old(state.refund), msg, env)
      ensures NoncesFit(state.world) && Total(state.world) == Total(old(state.world))
      ensures state.consumed == old(state.consumed) + TakenBy(old(state.world), msg, env)
      ensures old(LedgerOk(state.consumed, state.world)) && Get(old(state.world), msg.from).nonce < MAX_UINT64 ==>
                LedgerOk(state.consumed, state.world) && NoncesGrow(old(state.world), state.world)
    {
      ghost var w, c := state.world, state.consumed;
      var nonce := Get(state.world, msg.from).nonce;
      state.world := SetNonce(state.world, msg.from, (nonce + 1) % TWO_64);
      state.consumed := state.consumed + [(msg.from, nonce)];
      NonceTaken(w, c, msg.from, state.world);
      if msg.auths.Some? {
        ApplyAuthorizations(msg.auths.value);
      }
    }

    /** Runs the machine; a creation has its nonce taken in there. */
    method RunMessage(evm: Evm) returns (r: EvmResult)
      requires Sound(evm) && NoncesFit(state.world)
      requires msg.value <= Get(state.world, msg.from).balance
      modifies `gasRemaining, state
      ensures r == Ran(evm, old(state.world), old(state.refund), msg, env, old(gasRemaining))
      ensures gasRemaining == r.gasLeft <= old(gasRemaining) && state.world == r.world && state.refund == r.refund
      ensures NoncesFit(state.world)
      ensures Total(state.world) + r.burned == Total(old(state.world))
      ensures state.consumed == old(state.consumed) + TakenBy(old(state.world), msg, env)
      ensures old(LedgerOk(state.consumed, state.world)) && Get(old(state.world), msg.from).nonce < MAX_UINT64 ==>
                LedgerOk(state.consumed, state.world) && NoncesGrow(old(state.world), state.world)
    {
      if msg.to.Some? {
        PrepareCall();
      }
      ghost var w, c := state.world, state.consumed;
      r := evm(msg, state.world, gasRemaining, state.refund);
      assert EvmSound(msg, w, gasRemaining, r);
      gasRemaining, state.world, state.refund := r.gasLeft, r.world, r.refund;
      if msg.to.None? {
        state.consumed := state.consumed + [(msg.from, Get(w, msg.from).nonce)];
      }
      if LedgerOk(c, w) && Get(w, msg.from).nonce < MAX_UINT64 && msg.to.None? {
        ConsumeKeepsLedger(c, w, r.world, msg.from);
      }
    }

    /** Adds the capped refund, then enforces the floor. */
    method SettleGas(floor: Word) returns (used: Word, peak: Word)
      requires floor <= initialGas == msg.gasLimit && gasRemaining <= msg.gasLimit
      modifies `gasRemaining
      ensures gasRemaining == msg.gasLimit - used
              == Settled(msg.gasLimit, old(gasRemaining), state.refund, env.rules, floor)
      ensures env.rules.prague ==> floor <= used
      ensures used <= peak == Peak(msg.gasLimit - old(gasRemaining), env.rules, floor) <= msg.gasLimit
      ensures msg.gasLimit - old(gasRemaining) <= peak && (peak == msg.gasLimit - old(gasRemaining) || peak == floor)
    {
      SettledBounds(msg.gasLimit, gasRemaining, state.refund, env.rules, floor);
      peak := initialGas - gasRemaining;
      gasRemaining := gasRemaining + Refund(peak, state.refund, env.rules.london);
      if env.rules.prague {
        if initialGas - gasRemaining < floor {
          gasRemaining := initialGas - floor;
        }
        if peak < floor {
          peak := floor;
        }
      }
      used := initialGas - gasRemaining;
    }

    /** Refund, floor, return of unused gas, and the fee of the coinbase. */
    method Finish(floor: Word, r: EvmResult) returns (result: ExecutionResult)
      requires floor <= initialGas == msg.gasLimit && gp.gas <= MAX_UINT64 - msg.gasLimit
      requires gasRemaining == r.gasLeft <= msg.gasLimit && state.world == r.world && state.refund == r.refund
      modifies `gasRemaining, gp, state`world
      ensures SettledFrom(r, msg, env, floor, state.world, result)
      ensures result.usedGas <= msg.gasLimit && gp.gas == old(gp.gas) + (msg.gasLimit - result.usedGas)
      ensures env.rules.prague ==> floor <= result.usedGas
      ensures state.world == Paid(r.world, msg, env, Returned(msg, result.usedGas), Fee(msg, env, result.usedGas))
    {
      var used, peak := SettleGas(floor);
      gp.AddGas(gasRemaining);
      Pay(used);
      return ExecutionResult(used, peak, r.failed);
    }

    /** The refund of the sender, and the coinbase's share unless fees are switched off. */
    method Pay(used: nat)
      requires used <= msg.gasLimit
      modifies state`world
      ensures state.world == Paid(old(state.world), msg, env, Returned(msg, used), Fee(msg, env, used))
      ensures forall a | Get(old(state.world), a).balance < TWO_256 ::
                Get(state.world, a).balance ==
                (Get(old(state.world), a).balance + (if a == msg.from then Returned(msg, used) else 0)
                 + (if a == env.coinbase && !(env.noBaseFee && msg.gasFeeCap == 0 && msg.gasTipCap == 0)
                    then Fee(msg, env, used) else 0)) % TWO_256
    {
      forall a | Get(state.world, a).balance < TWO_256 {
        PaidTo(state.world, msg, env, Returned(msg, used), Fee(msg, env, used), a);
      }
      state.world := AddBalance(state.world, msg.from, Returned(msg, used));
      if !(env.noBaseFee && msg.gasFeeCap == 0 && msg.gasTipCap == 0) {
        state.world := AddBalance(state.world, env.coinbase, Fee(msg, env, used));
      }
    }

    /** Runs the machine on the bought gas and settles. */
    method Conclude(evm: Evm, floor: Word) returns (result: ExecutionResult, r: EvmResult)
      requires Sound(evm) && NoncesFit(state.world) && msg.value <= Get(state.world, msg.from).balance
      requires gasRemaining <= initialGas && floor <= initialGas == msg.gasLimit && gp.gas <= MAX_UINT64 - msg.gasLimit
      modifies `gasRemaining, gp, state
      ensures r == Ran(evm, old(state.world), old(state.refund), msg, env, old(gasRemaining))
      ensures SettledFrom(r, msg, env, floor, state.world, result)
      ensures result.usedGas <= msg.gasLimit && gp.gas == old(gp.gas) + (msg.gasLimit - result.usedGas)
      ensures env.rules.prague ==> floor <= result.usedGas
      ensures NoncesFit(state.world)
      ensures state.consumed == old(state.consumed) + TakenBy(old(state.world), msg, env)
      ensures old(LedgerOk(state.consumed, state.world)) && Get(old(state.world), msg.from).nonce < MAX_UINT64 ==>
                LedgerOk(state.consumed, state.world) && NoncesGrow(old(state.world), state.world)
    {
      r := RunMessage(evm);
      result := Finish(floor, r);
      SameNonces(r.world, state.world, state.consumed);
    }

    /**
     Applies the message. An error means the block is invalid; what was debited until then
     stays debited. Otherwise world and result follow from what the machine returned, and gas
     and nonces are accounted for.
     */
    method Execute(evm: Evm) returns (err: TxError, result: ExecutionResult, ghost burned: nat)
      requires Sound(evm) && NoncesFit(state.world) && |msg.data| <= MAX_UINT64
      modifies this, gp, state
      ensures err == Rejection(msg, env, old(state.world), old(gp.gas))
      ensures err.NoError? ==>
                Performed(evm, old(state.world), old(state.refund), msg, env, state.world, result, burned)
      ensures err.NoError? ==> gp.gas == old(gp.gas) - result.usedGas
      ensures err.NoError? ==>
                result.usedGas <= msg.gasLimit && (env.rules.prague ==> FloorOf(msg.data) <= result.usedGas)
      ensures err.NoError? && Accountable(msg, env) && Total(old(state.world)) < TWO_256 ==>
                && PaidFor(old(state.world), Prepared(Debited(old(state.world), msg, env), msg, env), msg, env)
                && PaidOut(Outcome(evm, old(state.world), old(state.refund), msg, env).world, state.world, msg, env,
                           result.usedGas)
      ensures err.NoError? ==> Intrinsic(msg, env) <= result.maxUsedGas
      ensures NoncesFit(state.world)
      ensures state.consumed == old(state.consumed) +
              if err.NoError? then TakenBy(Debited(old(state.world), msg, env), msg, env) else []
      ensures err.NoError? && !msg.skipNonceChecks ==> Get(old(state.world), msg.from).nonce == msg.nonce
      ensures old(LedgerOk(state.consumed, state.world)) && !msg.skipNonceChecks ==>
                LedgerOk(state.consumed, state.world) && NoncesGrow(old(state.world), state.world)
      ensures Accountable(msg, env) && Total(old(state.world)) < TWO_256 ==> err != InsufficientFundsForTransfer
    {
      burned, result := 0, ExecutionResult(0, 0, false);
      ghost var w0 := state.world;
      var floor;
      err, floor := Begin();
      ghost var w1 := state.world;
      SameNonces(w0, w1, state.consumed);
      if !err.NoError? {
        return;
      }
      ghost var gas := gasRemaining;
      var r;
      result, r := Conclude(evm, floor);
      burned := r.burned;
      IsPerformed(evm, w0, w1, old(state.refund), msg, env, gas, floor, r, state.world, result);
      PurchaseMeans(msg, env, w0, old(gp.gas));
      Payments(evm, w0, old(state.refund), msg, env, state.world, result, burned);
    }
  }

  lemma AuthorizedKeeps(w: World, consumed: seq<Consumed>, auth: Auth, chainId: nat, w': World)
    requires AuthValid(auth, chainId, w) && NoncesFit(w)
    requires w' == w[auth.authority.value := Authorized(Get(w, auth.authority.value), auth)]
    ensures NoncesFit(w') && NoncesGrow(w, w') && Total(w') == Total(w) && ContractsKept(w, w')
    ensures LedgerOk(consumed, w) ==> LedgerOk(consumed + [(auth.authority.value, auth.nonce)], w')
  {
    var a := auth.authority.value;
    TotalSet(w, a, w'[a]);
    if LedgerOk(consumed, w) {
      ConsumeKeepsLedger(consumed, w, w', a);
    }
  }

  /** The floor gas of the data, with the 64-bit token count. */
  function FloorOf(data: seq<Byte>): nat {
    TX_GAS + Tokens(data) % TWO_64 * TX_COST_FLOOR_PER_TOKEN
  }

  /** The floor that applies. */
  function Floor(msg: Message, env: Env): nat {
    if env.rules.prague then FloorOf(msg.data) else 0
  }

  /** The intrinsic gas, with its wrapping list costs. */
  function Intrinsic(msg: Message, env: Env): nat {
    (DataCost(msg.data, msg.to.None?, env.rules.homestead, env.rules.istanbul, env.rules.shanghai)
     + (msg.accessAddresses * TX_ACCESS_LIST_ADDRESS_GAS + msg.accessKeys * TX_ACCESS_LIST_STORAGE_KEY_GAS)
     + |Auths(msg)| * CALL_NEW_ACCOUNT_GAS) % TWO_64
  }

  /** Where nothing wraps, the intrinsic gas of a message in figures. */
  lemma IntrinsicIs(msg: Message, env: Env, zeros: nat, words: nat)
    requires zeros == multiset(msg.data)[0] && words == (|msg.data| + 31) / 32
    ensures zeros <= |msg.data| &&
            var gas := (if msg.to.None? && env.rules.homestead then 53000 else 21000)
                       + 4 * zeros + (if env.rules.istanbul then 16 else 68) * (|msg.data| - zeros)
                       + (if msg.to.None? && env.rules.shanghai then 2 * words else 0)
                       + 2400 * msg.accessAddresses + 1900 * msg.accessKeys + 25000 * |Auths(msg)|;
            gas <= MAX_UINT64 ==> Intrinsic(msg, env) == gas
  {
    CountZeroCounts(msg.data);
  }

  /** The floor in figures: 40 gas for every byte that is not zero, 10 for every zero. */
  lemma FloorIs(data: seq<Byte>, zeros: nat)
    requires zeros == multiset(data)[0] && |data| < 0x4000_0000_0000_0000
    ensures zeros <= |data| && FloorOf(data) == 21000 + 10 * zeros + 40 * (|data| - zeros)
  {
    CountZeroCounts(data);
  }

  /** The most gas that was in use at any time, at least the floor. */
  function Peak(used: nat, rules: Rules, floor: nat): nat {
    if rules.prague && used < floor then floor else used
  }

  /** What the machine returns when it runs a message on a world, with so much gas. */
  ghost function Ran(evm: Evm, w: World, refund: nat, msg: Message, env: Env, gas: nat): EvmResult {
    evm(msg, Prepared(w, msg, env), gas, PreparedRefund(w, refund, msg, env))
  }

  /** What the machine returns when a message is applied: its gas is bought and the intrinsic gas charged. */
  ghost function Outcome(evm: Evm, w: World, refund: nat, msg: Message, env: Env): EvmResult
    requires Intrinsic(msg, env) <= msg.gasLimit
  {
    Ran(evm, Debited(w, msg, env), refund, msg, env, msg.gasLimit - Intrinsic(msg, env))
  }

  /** The gas a message uses and the world it leaves, from what the machine returned. */
  ghost function UsedBy(r: EvmResult, msg: Message, env: Env, floor: nat): nat
    requires r.gasLeft <= msg.gasLimit && floor <= msg.gasLimit
  {
    msg.gasLimit - Settled(msg.gasLimit, r.gasLeft, r.refund, env.rules, floor)
  }

  ghost function WorldAfter(r: EvmResult, msg: Message, env: Env, used: nat): World
    requires used <= msg.gasLimit
  {
    Paid(r.world, msg, env, Returned(msg, used), Fee(msg, env, used))
  }

  /** The new world, the gas used and the failure flag follow from what the machine returned. */
  ghost predicate SettledFrom(r: EvmResult, msg: Message, env: Env, floor: nat, w': World, result: ExecutionResult) {
    && r.gasLeft <= msg.gasLimit && floor <= msg.gasLimit && result.failed == r.failed
    && result.usedGas == UsedBy(r, msg, env, floor)
    && result.maxUsedGas == Peak(msg.gasLimit - r.gasLeft, env.rules, floor)
    && result.usedGas <= msg.gasLimit
    && w' == WorldAfter(r, msg, env, result.usedGas)
  }

  ghost predicate Performed(evm: Evm, w: World, refund: nat, msg: Message, env: Env, w': World, result: ExecutionResult,
                            burned: nat)
  {
    && Intrinsic(msg, env) <= msg.gasLimit
    && burned == Outcome(evm, w, refund, msg, env).burned
    && SettledFrom(Outcome(evm, w, refund, msg, env), msg, env, Floor(msg, env), w', result)
  }

  /** A run of the machine on the bought gas, settled with the floor that applies, performs the message. */
  lemma IsPerformed(evm: Evm, w: World, bought: World, refund: nat, msg: Message, env: Env, gas: nat, floor: nat,
                    r: EvmResult, w': World, result: ExecutionResult)
    ensures bought == Debited(w, msg, env) && gas == msg.gasLimit - Intrinsic(msg, env) && floor == Floor(msg, env)
            && r == Ran(evm, bought, refund, msg, env, gas) && SettledFrom(r, msg, env, floor, w', result) ==>
              Performed(evm, w, refund, msg, env, w', result, r.burned)
  {
  }

  /** What the coinbase gets per gas; a price below the base fee wraps around. */
  function Tip(msg: Message, env: Env): nat {
    if env.rules.london then (msg.gasPrice - env.baseFee) % TWO_256 else msg.gasPrice % TWO_256
  }

  /** What the sender gets back, and what the coinbase gets, in wrapping 256-bit arithmetic. */
  function Returned(msg: Message, used: nat): nat
    requires used <= msg.gasLimit
  {
    (msg.gasLimit - used) * msg.gasPrice % TWO_256
  }

  function Fee(msg: Message, env: Env, used: nat): nat {
    used * Tip(msg, env) % TWO_256
  }

  /** The world after the unused gas is returned and the coinbase is paid. */
  function Paid(w: World, msg: Message, env: Env, back: nat, fee: nat): World {
    var returned := AddBalance(w, msg.from, back);
    if env.noBaseFee && msg.gasFeeCap == 0 && msg.gasTipCap == 0 then returned
    else AddBalance(returned, env.coinbase, fee)
  }

  /** Who is paid: the unused gas goes to the sender and the fee to the coinbase, unless fees are switched off. */
  lemma PaidTo(w: World, msg: Message, env: Env, back: nat, fee: nat, a: Address)
    requires Get(w, a).balance < TWO_256
    ensures var charged := !(env.noBaseFee && msg.gasFeeCap == 0 && msg.gasTipCap == 0);
            Get(Paid(w, msg, env, back, fee), a).balance ==
            (Get(w, a).balance + (if a == msg.from then back else 0)
             + (if a == env.coinbase && charged then fee else 0)) % TWO_256
    ensures Get(Paid(w, msg, env, back, fee), a).nonce == Get(w, a).nonce
    ensures Get(Paid(w, msg, env, back, fee), a).code == Get(w, a).code
  {
    FitsWord(Get(w, a).balance);
    AddedTwice(Get(w, a).balance, back, fee);
  }

  lemma AddedTwice(x: nat, y: nat, z: nat)
    ensures ((x + y) % TWO_256 + z) % TWO_256 == (x + y + z) % TWO_256
  {
  }

  /** The gas not used is returned to the sender at its price, and the coinbase gets the tip on the gas used. */
  ghost predicate PaidOut(w: World, w': World, msg: Message, env: Env, used: nat) {
    forall a ::
      && Get(w', a).balance ==
         Get(w, a).balance + (if a == msg.from then (msg.gasLimit - used) * msg.gasPrice else 0)
         + (if a == env.coinbase then used * (msg.gasPrice - env.baseFee) else 0)
      && Get(w', a).nonce == Get(w, a).nonce && Get(w', a).code == Get(w, a).code
  }

  /** Exactly the sender has paid, for all the gas and the blobs. */
  ghost predicate PaidFor(w: World, w': World, msg: Message, env: Env) {
    forall a :: Get(w', a).balance ==
                Get(w, a).balance - if a == msg.from then msg.gasLimit * msg.gasPrice + BlobFee(msg, env) else 0
  }

  /** Exactly the up-front cost left the world, and it meets the fee checks. */
  ghost predicate Bought(w: World, w': World, msg: Message, env: Env) {
    FeesChecked(msg, env) && UpFront(msg, env) < TWO_256 && Total(w') + UpFront(msg, env) == Total(w)
  }

  /** Exactly what was burned, the base fee on the gas used and the blob fee left the world. */
  ghost predicate Accounted(w: World, w': World, msg: Message, env: Env, burned: nat, used: nat) {
    Total(w') + burned + used * env.baseFee + BlobFee(msg, env) == Total(w)
  }

  /** A message made from a transaction, after London, with the fee checks on. */
  predicate Accountable(msg: Message, env: Env) {
    && env.rules.london && !env.noBaseFee
    && msg.gasPrice == EffectivePrice(msg.gasTipCap, msg.gasFeeCap, env.baseFee)
  }

  lemma NonceTaken(w: World, consumed: seq<Consumed>, a: Address, w': World)
    requires NoncesFit(w) && w' == SetNonce(w, a, (Get(w, a).nonce + 1) % TWO_64)
    ensures NoncesFit(w') && Total(w') == Total(w)
    ensures LedgerOk(consumed, w) && Get(w, a).nonce < MAX_UINT64 ==>
              LedgerOk(consumed + [(a, Get(w, a).nonce)], w') && NoncesGrow(w, w')
  {
    TotalSet(w, a, w'[a]);
    if LedgerOk(consumed, w) && Get(w, a).nonce < MAX_UINT64 {
      ConsumeKeepsLedger(consumed, w, w', a);
    }
  }

  /** Balances may change freely without touching the ledger. */
  lemma SameNonces(w: World, w': World, consumed: seq<Consumed>)
    requires forall a :: Get(w', a).nonce == Get(w, a).nonce
    requires NoncesFit(w)
    ensures NoncesFit(w') && NoncesGrow(w, w')
    ensures LedgerOk(consumed, w) ==> LedgerOk(consumed, w')
  {
    forall a | a in w' ensures w'[a].nonce < TWO_64 {
      assert Get(w', a).nonce == Get(w, a).nonce;
    }
  }

  lemma FitsWord(x: nat)
    requires x < TWO_256
    ensures x % TWO_256 == x
  {
  }

  /** The up-front debit neither wraps nor leaves the sender short of the value. */
  lemma PurchaseIsExact(w: World, msg: Message, env: Env)
    requires Payable(w, msg, env)
    ensures Bought(w, Debited(w, msg, env), msg, env)
    ensures msg.value <= Get(Debited(w, msg, env), msg.from).balance && msg.value < TWO_256
  {
    UpFrontIsCovered(msg, env);
    FitsWord(UpFront(msg, env));
    DebitIsExact(w, msg.from, UpFront(msg, env));
  }

  /** If the whole purchase fits a word, no fee product wraps, and the parts add up. */
  lemma PartsFit(limit: nat, used: nat, price: nat, base: nat, back: nat, fee: nat)
    requires used <= limit && base <= price < TWO_256 && limit * price < TWO_256
    requires back == (limit - used) * price % TWO_256 && fee == used * ((price - base) % TWO_256) % TWO_256
    ensures back == (limit - used) * price && fee == used * (price - base)
    ensures back + fee + used * base == limit * price && back + fee <= limit * price
  {
    FeesBalance(limit, limit - used, price, base);
    FitsWord(price - base);
    var b: nat, f: nat, burn: nat := (limit - used) * price, used * (price - base), used * base;
    FitsWord(b);
    FitsWord(f);
  }

  lemma AmountsAddUp(msg: Message, env: Env, used: nat)
    requires Accountable(msg, env) && FeesChecked(msg, env) && used <= msg.gasLimit && UpFront(msg, env) < TWO_256
    ensures Returned(msg, used) + Fee(msg, env, used) <= UpFront(msg, env)
    ensures Returned(msg, used) + Fee(msg, env, used) + used * env.baseFee + BlobFee(msg, env) == UpFront(msg, env)
  {
    UpFrontIsCovered(msg, env);
    PartsFit(msg.gasLimit, used, msg.gasPrice, env.baseFee, Returned(msg, used), Fee(msg, env, used));
  }

  /** Before London the coinbase gets the whole price of the gas used. */
  lemma AmountsBeforeLondon(msg: Message, env: Env, used: nat)
    requires !env.rules.london && used <= msg.gasLimit && msg.gasPrice < TWO_256
    requires msg.gasLimit * msg.gasPrice < TWO_256
    ensures Returned(msg, used) == (msg.gasLimit - used) * msg.gasPrice && Fee(msg, env, used) == used * msg.gasPrice
  {
    PartsFit(msg.gasLimit, used, msg.gasPrice, 0, Returned(msg, used), Fee(msg, env, used));
  }

  lemma PaidIsExact(w: World, msg: Message, env: Env, back: nat, fee: nat)
    requires !env.noBaseFee && Total(w) + back + fee < TWO_256
    ensures Total(Paid(w, msg, env, back, fee)) == Total(w) + back + fee
  {
    CreditIsExact(w, msg.from, back);
    CreditIsExact(AddBalance(w, msg.from, back), env.coinbase, fee);
  }

  /** Without wrapping, each account gets exactly its share. */
  lemma SharesAreExact(w0: World, w1: World, w2: World, msg: Message, env: Env, burned: nat, used: nat)
    requires Accountable(msg, env) && used <= msg.gasLimit && Total(w0) < TWO_256
    requires Bought(w0, w1, msg, env) && Total(w2) + burned == Total(w1)
    ensures PaidOut(w2, Paid(w2, msg, env, Returned(msg, used), Fee(msg, env, used)), msg, env, used)
  {
    AmountsAddUp(msg, env, used);
    AmountsAre(msg, env, used);
    forall a {
      ShareIsExact(w2, msg, env, Returned(msg, used), Fee(msg, env, used), a);
    }
  }

  lemma ShareIsExact(w: World, msg: Message, env: Env, back: nat, fee: nat, a: Address)
    requires !env.noBaseFee && Total(w) + back + fee < TWO_256
    ensures var paid := Get(Paid(w, msg, env, back, fee), a);
            && paid.balance ==
               Get(w, a).balance + (if a == msg.from then back else 0) + (if a == env.coinbase then fee else 0)
            && paid.nonce == Get(w, a).nonce && paid.code == Get(w, a).code
  {
    BalanceBound(w, a);
    PaidTo(w, msg, env, back, fee, a);
    FitsWord(Get(w, a).balance + (if a == msg.from then back else 0) + (if a == env.coinbase then fee else 0));
  }

  /** The amounts, where the purchase fits a word: the gas not used at its price, and the tip on the gas used. */
  lemma AmountsAre(msg: Message, env: Env, used: nat)
    requires Accountable(msg, env) && FeesChecked(msg, env) && used <= msg.gasLimit && UpFront(msg, env) < TWO_256
    ensures Returned(msg, used) == (msg.gasLimit - used) * msg.gasPrice
    ensures env.baseFee <= msg.gasPrice && Fee(msg, env, used) == used * (msg.gasPrice - env.baseFee)
  {
    UpFrontIsCovered(msg, env);
    PartsFit(msg.gasLimit, used, msg.gasPrice, env.baseFee, Returned(msg, used), Fee(msg, env, used));
  }

  lemma SettlementIsExact(w0: World, w1: World, w2: World, msg: Message, env: Env, burned: nat, used: nat)
    requires Accountable(msg, env) && used <= msg.gasLimit && Total(w0) < TWO_256
    requires Bought(w0, w1, msg, env) && Total(w2) + burned == Total(w1)
    ensures Accounted(w0, Paid(w2, msg, env, Returned(msg, used), Fee(msg, env, used)), msg, env, burned, used)
  {
    AmountsAddUp(msg, env, used);
    PaidIsExact(w2, msg, env, Returned(msg, used), Fee(msg, env, used));
  }

  lemma {:induction false} AuthsKeepTotal(w: World, auths: seq<Auth>, chainId: nat)
    ensures Total(AfterAuths(w, auths, chainId)) == Total(w)
    decreases |auths|
  {
    if auths != [] {
      var before, last := auths[..|auths| - 1], auths[|auths| - 1];
      AuthsKeepTotal(w, before, chainId);
      var x := AfterAuths(w, before, chainId);
      if AuthValid(last, chainId, x) {
        TotalSet(x, last.authority.value, Authorized(Get(x, last.authority.value), last));
      }
    }
  }

  lemma PreparedKeepsTotal(w: World, msg: Message, env: Env)
    ensures Total(Prepared(w, msg, env)) == Total(w)
  {
    TotalSet(w, msg.from, Counted(w, msg)[msg.from]);
    AuthsKeepTotal(Counted(w, msg), Auths(msg), env.chainId);
  }

  lemma {:induction false} AuthsKeepBalances(w: World, auths: seq<Auth>, chainId: nat, a: Address)
    ensures Get(AfterAuths(w, auths, chainId), a).balance == Get(w, a).balance
    decreases |auths|
  {
    if auths != [] {
      AuthsKeepBalances(w, auths[..|auths| - 1], chainId, a);
    }
  }

  /** The world the machine starts with: only the sender has paid, and nobody was paid yet. */
  lemma PurchaseIsPaid(w: World, msg: Message, env: Env)
    requires Payable(w, msg, env)
    ensures PaidFor(w, Prepared(Debited(w, msg, env), msg, env), msg, env)
  {
    UpFrontIsCovered(msg, env);
    FitsWord(UpFront(msg, env));
    DebitIsExact(w, msg.from, UpFront(msg, env));
    var w1 := Debited(w, msg, env);
    forall a ensures Get(Prepared(w1, msg, env), a).balance == Get(w1, a).balance {
      AuthsKeepBalances(Counted(w1, msg), Auths(msg), env.chainId, a);
    }
  }

  /** After London, with the fee checks passed, by a sender who has the required balance. */
  ghost predicate Payable(w: World, msg: Message, env: Env) {
    && Accountable(msg, env) && FeesChecked(msg, env) && Total(w) < TWO_256
    && Required(msg, env) < TWO_256 && Required(msg, env) <= Get(w, msg.from).balance
  }

  /**
   Conservation: whatever the machine does within its assumptions, after London with the fee
   checks on exactly what it burned, the base fee on the gas used and the blob fee leave the
   world. No fee product wraps and no debit underflows on the way.
   */
  lemma Conservation(evm: Evm, w: World, refund: nat, msg: Message, env: Env, w': World, result: ExecutionResult,
                     burned: nat)
    requires Sound(evm)
    ensures Payable(w, msg, env) && Performed(evm, w, refund, msg, env, w', result, burned) ==>
              Accounted(w, w', msg, env, burned, result.usedGas)
  {
    if Payable(w, msg, env) && Performed(evm, w, refund, msg, env, w', result, burned) {
      var w1, r := Debited(w, msg, env), Outcome(evm, w, refund, msg, env);
      PurchaseIsExact(w, msg, env);
      PreparedKeepsTotal(w1, msg, env);
      assert EvmSound(msg, Prepared(w1, msg, env), msg.gasLimit - Intrinsic(msg, env), r);
      SettlementIsExact(w, w1, r.world, msg, env, burned, result.usedGas);
    }
  }

  /**
   Who pays and who is paid: before the machine runs exactly the sender has paid, after it
   ran exactly sender and coinbase get their shares.
   */
  lemma Payments(evm: Evm, w: World, refund: nat, msg: Message, env: Env, w': World, result: ExecutionResult,
                 burned: nat)
    requires Sound(evm)
    ensures Payable(w, msg, env) && Performed(evm, w, refund, msg, env, w', result, burned) ==>
              && PaidFor(w, Prepared(Debited(w, msg, env), msg, env), msg, env)
              && PaidOut(Outcome(evm, w, refund, msg, env).world, w', msg, env, result.usedGas)
  {
    if Payable(w, msg, env) && Performed(evm, w, refund, msg, env, w', result, burned) {
      var w1, r := Debited(w, msg, env), Outcome(evm, w, refund, msg, env);
      PurchaseIsExact(w, msg, env);
      PurchaseIsPaid(w, msg, env);
      PreparedKeepsTotal(w1, msg, env);
      assert EvmSound(msg, Prepared(w1, msg, env), msg.gasLimit - Intrinsic(msg, env), r);
      SharesAreExact(w, w1, r.world, msg, env, burned, result.usedGas);
    }
  }
}
