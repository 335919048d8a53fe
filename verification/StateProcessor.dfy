/** Processing the transactions of a block: receipts, gas, nonces and balances over the whole loop. */
module StateProcessors {
  import opened Options
  import opened Words
  import opened Gas
  import opened Worlds
  import opened StateTransitions

  /** sender is what the signature recovers to, if it does. */
  datatype Transaction = Transaction(sender: Option<Address>, to: Option<Address>, nonce: Word, value: nat,
                                     gasLimit: Word, gasPrice: nat, gasFeeCap: nat, gasTipCap: nat, data: seq<Byte>,
                                     accessAddresses: nat, accessKeys: nat, blobGasFeeCap: nat,
                                     blobHashes: Option<seq<bool>>, auths: Option<seq<Auth>>)

  datatype Receipt = Receipt(successful: bool, cumulativeGasUsed: nat, gasUsed: nat)

  datatype ProcessError = Processed | InvalidSender(index: nat) | NotApplied(index: nat, error: TxError)

  /** After London the price follows from tip cap, fee cap and base fee, and never exceeds the fee cap. */
  function TransactionToMessage(tx: Transaction, env: Env): (r: Option<Message>)
    ensures r.Some? <==> tx.sender.Some?
    ensures r.Some? ==>
              && r.value.from == tx.sender.value && r.value.to == tx.to && r.value.nonce == tx.nonce
              && r.value.value == tx.value
              && r.value.gasLimit == tx.gasLimit && r.value.data == tx.data && r.value.auths == tx.auths
              && r.value.gasFeeCap == tx.gasFeeCap && r.value.gasTipCap == tx.gasTipCap
              && r.value.blobHashes == tx.blobHashes && r.value.blobGasFeeCap == tx.blobGasFeeCap
              && r.value.accessAddresses == tx.accessAddresses && r.value.accessKeys == tx.accessKeys
              && !r.value.skipNonceChecks && !r.value.skipFromEOACheck
    ensures r.Some? && !env.rules.london ==> r.value.gasPrice == tx.gasPrice
    ensures r.Some? && env.rules.london ==>
              r.value.gasPrice <= tx.gasFeeCap && r.value.gasPrice <= tx.gasTipCap + env.baseFee
              && (r.value.gasPrice == tx.gasFeeCap || r.value.gasPrice == tx.gasTipCap + env.baseFee)
  {
    if tx.sender.None? then None
    else
      var price := if env.rules.london then EffectivePrice(tx.gasTipCap, tx.gasFeeCap, env.baseFee) else tx.gasPrice;
      Some(Message(tx.to, tx.sender.value, tx.nonce, tx.value, tx.gasLimit, price, tx.gasFeeCap, tx.gasTipCap, tx.data,
                   tx.accessAddresses, tx.accessKeys, tx.blobGasFeeCap, tx.blobHashes, tx.auths, false, false))
  }

  /** The gas used by the first receipts. */
  function GasSum(receipts: seq<Receipt>, count: nat): nat
    requires count <= |receipts|
  {
    if count == 0 then 0 else GasSum(receipts, count - 1) + receipts[count - 1].gasUsed
  }

  lemma {:induction false} GasSumPrefix(receipts: seq<Receipt>, next: Receipt, count: nat)
    requires count <= |receipts|
    ensures GasSum(receipts + [next], count) == GasSum(receipts, count)
  {
    if count > 0 {
      GasSumPrefix(receipts, next, count - 1);
    }
  }

  /** Each receipt reports the gas used by itself and all receipts before it. */
  ghost predicate Cumulative(receipts: seq<Receipt>) {
    forall i | 0 <= i < |receipts| :: receipts[i].cumulativeGasUsed == GasSum(receipts, i + 1)
  }

  lemma CumulativeGrows(receipts: seq<Receipt>, next: Receipt)
    requires Cumulative(receipts) && next.cumulativeGasUsed == GasSum(receipts, |receipts|) + next.gasUsed
    ensures Cumulative(receipts + [next])
    ensures GasSum(receipts + [next], |receipts| + 1) == next.cumulativeGasUsed
  {
    var r := receipts + [next];
    GasSumPrefix(receipts, next, |receipts|);
    forall i | 0 <= i < |receipts| ensures r[i].cumulativeGasUsed == GasSum(r, i + 1) {
      GasSumPrefix(receipts, next, i + 1);
    }
  }

  /** Each transaction uses at most its limit and, after Prague, at least its floor. */
  ghost predicate WithinLimits(txs: seq<Transaction>, receipts: seq<Receipt>, env: Env) {
    && |receipts| <= |txs|
    && (forall i | 0 <= i < |receipts| ::
          receipts[i].gasUsed <= txs[i].gasLimit && (env.rules.prague ==> FloorOf(txs[i].data) <= receipts[i].gasUsed))
  }

  /** The first transactions are in the ledger, and no two of them have the same sender and nonce. */
  ghost predicate NoReplay(txs: seq<Transaction>, count: nat, consumed: seq<Consumed>)
    requires count <= |txs|
  {
    && (forall i | 0 <= i < count :: txs[i].sender.Some? && (txs[i].sender.value, txs[i].nonce) in consumed)
    && (forall i, j | 0 <= i < j < count :: !(txs[i].sender == txs[j].sender && txs[i].nonce == txs[j].nonce))
  }

  lemma NoReplayGrows(txs: seq<Transaction>, at: nat, consumed: seq<Consumed>, consumed': seq<Consumed>, w: World)
    requires at < |txs| && txs[at].sender.Some? && NoReplay(txs, at, consumed) && LedgerOk(consumed', w)
    requires consumed + [(txs[at].sender.value, txs[at].nonce)] <= consumed'
    ensures NoReplay(txs, at + 1, consumed')
  {
    var last := (txs[at].sender.value, txs[at].nonce);
    assert consumed'[|consumed|] == last;
    forall i | 0 <= i < at
      ensures (txs[i].sender.value, txs[i].nonce) in consumed' && (txs[i].sender.value, txs[i].nonce) != last {
      var k :| 0 <= k < |consumed| && consumed[k] == (txs[i].sender.value, txs[i].nonce);
      assert consumed'[k] == consumed[k];
    }
  }

  /** Blob fees of the first transactions. */
  ghost function BlobFees(txs: seq<Transaction>, env: Env, count: nat): nat
    requires count <= |txs|
  {
    if count == 0 then 0
    else
      var msg := TransactionToMessage(txs[count - 1], env);
      BlobFees(txs, env, count - 1) + if msg.Some? then BlobFee(msg.value, env) else 0
  }

  /** What left the world over the first transactions. */
  ghost predicate BlockAccounted(w: World, w': World, txs: seq<Transaction>, env: Env, count: nat, burned: nat,
                                 used: nat)
    requires count <= |txs|
  {
    Total(w') + burned + used * env.baseFee + BlobFees(txs, env, count) == Total(w)
  }

  lemma BlockAccountedGrows(w0: World, w: World, w': World, txs: seq<Transaction>, env: Env, at: nat,
                            burned: nat, used: nat, burnedNow: nat, usedNow: nat, total: nat)
    requires total == used + usedNow
    requires at < |txs| && txs[at].sender.Some? && BlockAccounted(w0, w, txs, env, at, burned, used)
    requires Accounted(w, w', TransactionToMessage(txs[at], env).value, env, burnedNow, usedNow)
    ensures BlockAccounted(w0, w', txs, env, at + 1, burned + burnedNow, total)
  {
    Distributes(used, usedNow, total, env.baseFee);
    var msg := TransactionToMessage(txs[at], env).value;
    assert BlobFees(txs, env, at + 1) == BlobFees(txs, env, at) + BlobFee(msg, env);
  }

  lemma Distributes(a: nat, b: nat, sum: nat, c: nat)
    requires sum == a + b
    ensures sum * c == a * c + b * c
  {
  }

  lemma TotalShrinks(w0: World, w: World, txs: seq<Transaction>, env: Env, count: nat, burned: nat, used: nat)
    requires count <= |txs| && BlockAccounted(w0, w, txs, env, count, burned, used)
    ensures Total(w) <= Total(w0)
  {
    var base: nat := used * env.baseFee;
  }

  /** World, refund counter and gas left in the block between two transactions. */
  datatype Point = Point(world: World, refund: nat, gas: nat)

  /** The point after a message that is not rejected. */
  ghost function After(evm: Evm, env: Env, x: Point, msg: Message): Point
    requires Sound(evm) && Rejection(msg, env, x.world, x.gas).NoError?
  {
    var r := Result(evm, env, x, msg);
    var used := UsedBy(r, msg, env, Floor(msg, env));
    Point(WorldAfter(r, msg, env, used), 0, x.gas - used)
  }

  /** What the machine returns for a message that is not rejected. */
  ghost function Result(evm: Evm, env: Env, x: Point, msg: Message): (r: EvmResult)
    requires Sound(evm) && Rejection(msg, env, x.world, x.gas).NoError?
    ensures r.gasLeft <= msg.gasLimit && Floor(msg, env) <= msg.gasLimit
            && UsedBy(r, msg, env, Floor(msg, env)) <= msg.gasLimit <= x.gas
  {
    var w := Debited(x.world, msg, env);
    var r := Outcome(evm, x.world, x.refund, msg, env);
    assert EvmSound(msg, Prepared(w, msg, env), msg.gasLimit - Intrinsic(msg, env), r);
    SettledBounds(msg.gasLimit, r.gasLeft, r.refund, env.rules, Floor(msg, env));
    r
  }

  /** The transaction has a sender and its message is not rejected at this point. */
  ghost predicate Applies(env: Env, x: Point, tx: Transaction) {
    tx.sender.Some? && Rejection(TransactionToMessage(tx, env).value, env, x.world, x.gas).NoError?
  }

  /** The transaction applies at x and leads to y; the receipt shows the gas used and the success. */
  ghost predicate Stepped(evm: Evm, env: Env, x: Point, tx: Transaction, y: Point, receipt: Receipt) {
    Sound(evm) && Applies(env, x, tx) &&
    var msg := TransactionToMessage(tx, env).value;
    && y == After(evm, env, x, msg) && receipt.gasUsed == x.gas - y.gas
    && receipt.successful == !Result(evm, env, x, msg).failed
  }

  /** The points and receipts of the first transactions of a block that starts at x. */
  ghost predicate Trace(evm: Evm, env: Env, txs: seq<Transaction>, x: Point, points: seq<Point>,
                        receipts: seq<Receipt>)
  {
    && |receipts| <= |txs| && |points| == |receipts| + 1 && points[0] == x
    && (forall i | 0 <= i < |receipts| :: Stepped(evm, env, points[i], txs[i], points[i + 1], receipts[i]))
  }

  lemma TraceGrows(evm: Evm, env: Env, txs: seq<Transaction>, x: Point, points: seq<Point>, receipts: seq<Receipt>,
                   y: Point, receipt: Receipt)
    requires |receipts| < |txs| && |points| == |receipts| + 1
    ensures Trace(evm, env, txs, x, points, receipts)
            && Stepped(evm, env, points[|receipts|], txs[|receipts|], y, receipt) ==>
              Trace(evm, env, txs, x, points + [y], receipts + [receipt])
  {
    if Trace(evm, env, txs, x, points, receipts) && Stepped(evm, env, points[|receipts|], txs[|receipts|], y, receipt) {
      var ps, rs := points + [y], receipts + [receipt];
      forall i | 0 <= i < |rs| ensures Stepped(evm, env, ps[i], txs[i], ps[i + 1], rs[i]) {
        if i < |receipts| {
          assert Stepped(evm, env, points[i], txs[i], points[i + 1], receipts[i]);
        }
      }
    }
  }

  /** Every transaction after the first starts with an empty refund counter. */
  lemma RefundsStartAtZero(evm: Evm, env: Env, txs: seq<Transaction>, x: Point, points: seq<Point>,
                           receipts: seq<Receipt>, i: nat)
    requires Trace(evm, env, txs, x, points, receipts) && 0 < i < |points|
    ensures points[i].refund == 0
  {
    assert Stepped(evm, env, points[i - 1], txs[i - 1], points[i], receipts[i - 1]);
  }

  /** The error names the transaction that does not apply at x, and why. */
  ghost predicate StoppedBy(env: Env, x: Point, txs: seq<Transaction>, at: nat, err: ProcessError) {
    at < |txs| &&
    match err
    case Processed => false
    case InvalidSender(i) => i == at && txs[at].sender.None?
    case NotApplied(i, e) =>
      i == at && txs[at].sender.Some? && !e.NoError?
        && e == Rejection(TransactionToMessage(txs[at], env).value, env, x.world, x.gas)
  }

  /** The outcome is determined: traces of one block agree as far as both go, and none goes on where one is stopped. */
  lemma {:induction false} TracesAgree(evm: Evm, env: Env, txs: seq<Transaction>, x: Point, points: seq<Point>,
                                       receipts: seq<Receipt>, points': seq<Point>, receipts': seq<Receipt>, i: nat)
    requires Trace(evm, env, txs, x, points, receipts) && Trace(evm, env, txs, x, points', receipts')
    requires i < |points| && i < |points'|
    ensures points[i] == points'[i]
    decreases i
  {
    if i > 0 {
      TracesAgree(evm, env, txs, x, points, receipts, points', receipts', i - 1);
      assert Stepped(evm, env, points[i - 1], txs[i - 1], points[i], receipts[i - 1]);
      assert Stepped(evm, env, points'[i - 1], txs[i - 1], points'[i], receipts'[i - 1]);
    }
  }

  lemma StopsForGood(evm: Evm, env: Env, txs: seq<Transaction>, x: Point, points: seq<Point>, receipts: seq<Receipt>,
                     err: ProcessError, points': seq<Point>, receipts': seq<Receipt>)
    requires Trace(evm, env, txs, x, points, receipts) && StoppedBy(env, points[|receipts|], txs, |receipts|, err)
    requires Trace(evm, env, txs, x, points', receipts')
    ensures |receipts'| <= |receipts|
  {
    var n := |receipts|;
    if n < |receipts'| {
      assert Stepped(evm, env, points'[n], txs[n], points'[n + 1], receipts'[n]);
      TracesAgree(evm, env, txs, x, points, receipts, points', receipts', n);
    }
  }

  /** What the machine burned in a transaction that applies at x. */
  ghost function BurnedBy(evm: Evm, env: Env, x: Point, tx: Transaction): nat {
    if Sound(evm) && Applies(env, x, tx) then Result(evm, env, x, TransactionToMessage(tx, env).value).burned else 0
  }

  /** The nonces a transaction takes that applies at x: its sender's and those of its valid authorizations. */
  ghost function TakenAt(env: Env, x: Point, tx: Transaction): seq<Consumed> {
    if tx.sender.None? then []
    else
      var msg := TransactionToMessage(tx, env).value;
      TakenBy(Debited(x.world, msg, env), msg, env)
  }

  /** What a transaction takes and burns. */
  datatype Books = Books(taken: seq<Consumed>, burned: nat)

  ghost function BooksAt(evm: Evm, env: Env, x: Point, tx: Transaction): Books {
    Books(TakenAt(env, x, tx), BurnedBy(evm, env, x, tx))
  }

  /** The books are those of the first transactions, each at its point. */
  ghost predicate Kept(evm: Evm, env: Env, txs: seq<Transaction>, points: seq<Point>, books: seq<Books>) {
    && |books| <= |txs| && |points| == |books| + 1
    && (forall i | 0 <= i < |books| :: books[i] == BooksAt(evm, env, points[i], txs[i]))
  }

  lemma KeptGrows(evm: Evm, env: Env, txs: seq<Transaction>, points: seq<Point>, books: seq<Books>, y: Point,
                  book: Books)
    requires Kept(evm, env, txs, points, books) && |books| < |txs|
             && book == BooksAt(evm, env, points[|books|], txs[|books|])
    ensures Kept(evm, env, txs, points + [y], books + [book])
  {
    var ps, bs := points + [y], books + [book];
    forall i | 0 <= i < |bs| ensures bs[i] == BooksAt(evm, env, ps[i], txs[i]) {
      assert ps[i] == points[i];
    }
  }

  ghost function AllTaken(books: seq<Books>): seq<Consumed> {
    if books == [] then [] else AllTaken(books[..|books| - 1]) + books[|books| - 1].taken
  }

  ghost function AllBurned(books: seq<Books>): nat {
    if books == [] then 0 else AllBurned(books[..|books| - 1]) + books[|books| - 1].burned
  }

  lemma BooksGrow(start: seq<Consumed>, books: seq<Books>, book: Books)
    ensures start + AllTaken(books + [book]) == (start + AllTaken(books)) + book.taken
    ensures AllBurned(books + [book]) == AllBurned(books) + book.burned
  {
    assert (books + [book])[..|books|] == books;
  }

  /** Balances in the range in which they are accounted for exactly: after London, fee checks on, below 2^256 in all. */
  ghost predicate Exact(env: Env, w: World) {
    env.rules.london && !env.noBaseFee && Total(w) < TWO_256
  }

  /** One applied transaction: gas, nonces and balances add up. */
  ghost predicate Balances(env: Env, tx: Transaction, x: Point, used: nat, consumed: seq<Consumed>,
                           y: Point, consumed': seq<Consumed>, receipt: Receipt, book: Books)
  {
    && tx.sender.Some? && y.gas + receipt.gasUsed == x.gas && receipt.cumulativeGasUsed == used + receipt.gasUsed
    && receipt.gasUsed <= tx.gasLimit && (env.rules.prague ==> FloorOf(tx.data) <= receipt.gasUsed)
    && NoncesFit(y.world) && LedgerOk(consumed', y.world) && NoncesGrow(x.world, y.world)
    && consumed' == consumed + book.taken && book.taken != [] && book.taken[0] == (tx.sender.value, tx.nonce)
    && (Exact(env, x.world) ==>
          Accounted(x.world, y.world, TransactionToMessage(tx, env).value, env, book.burned, receipt.gasUsed))
  }

  /** Applies one message and makes its receipt; usedGas accumulates over the block. */
  method ApplyTransaction(msg: Message, env: Env, gp: GasPool, state: StateDB, tx: Transaction, usedGas: Word, evm: Evm)
    returns (err: TxError, receipt: Receipt, ghost book: Books)
    requires Sound(evm) && NoncesFit(state.world) && LedgerOk(state.consumed, state.world)
    requires TransactionToMessage(tx, env) == Some(msg) && |msg.data| <= MAX_UINT64 && gp.gas + usedGas <= MAX_UINT64
    modifies gp, state
    ensures err == Rejection(msg, env, old(state.world), old(gp.gas))
    ensures err.NoError? ==>
              var x, y := old(Point(state.world, state.refund, gp.gas)), Point(state.world, state.refund, gp.gas);
              && Stepped(evm, env, x, tx, y, receipt) && book == BooksAt(evm, env, x, tx)
              && Balances(env, tx, x, usedGas, old(state.consumed), y, state.consumed, receipt, book)
    ensures !err.NoError? ==> state.consumed == old(state.consumed)
    ensures NoncesFit(state.world) && LedgerOk(state.consumed, state.world) && NoncesGrow(old(state.world), state.world)
    ensures Exact(env, old(state.world)) ==> err != InsufficientFundsForTransfer
  {
    receipt, book := Receipt(false, 0, 0), BooksAt(evm, env, Point(state.world, state.refund, gp.gas), tx);
    ghost var w, counter := state.world, state.refund;
    var st := new StateTransition(msg, env, gp, state);
    var result;
    ghost var burned;
    err, result, burned := st.Execute(evm);
    if !err.NoError? {
      return;
    }
    PurchaseMeans(msg, env, w, old(gp.gas));
    if Exact(env, w) {
      Conservation(evm, w, counter, msg, env, state.world, result, burned);
    }
    state.refund := 0;
    receipt := Receipt(!result.failed, usedGas + result.usedGas, result.usedGas);
  }

  /** What the receipts of a block so far promise about gas, nonces and balances. */
  ghost predicate Settling(env: Env, txs: seq<Transaction>, x: Point, receipts: seq<Receipt>, books: seq<Books>,
                           used: nat, start: seq<Consumed>, consumed: seq<Consumed>, y: Point)
  {
    && Done(txs, env, receipts, used, consumed, y.world) && |books| == |receipts|
    && y.gas + used == x.gas && NoncesGrow(x.world, y.world)
    && consumed == start + AllTaken(books)
    && Balanced(env, txs, |books|, x.world, y.world, AllBurned(books), used)
  }

  /** The state of the loop over a block that started at x. */
  ghost predicate Sofar(evm: Evm, env: Env, txs: seq<Transaction>, x: Point, points: seq<Point>, receipts: seq<Receipt>,
                        books: seq<Books>, used: nat, start: seq<Consumed>, consumed: seq<Consumed>, y: Point)
  {
    && Trace(evm, env, txs, x, points, receipts) && points[|receipts|] == y && Kept(evm, env, txs, points, books)
    && Settling(env, txs, x, receipts, books, used, start, consumed, y)
  }

  /** Exactly what the first transactions burned and their fees left the world. */
  ghost predicate Balanced(env: Env, txs: seq<Transaction>, count: nat, w: World, w': World, burned: nat, used: nat) {
    count <= |txs| && (Exact(env, w) ==> BlockAccounted(w, w', txs, env, count, burned, used))
  }

  lemma BalancedGrows(env: Env, txs: seq<Transaction>, n: nat, w: World, w': World, w'': World,
                      burned: nat, burnedNow: nat, used: nat, usedNow: nat, total: nat)
    requires n < |txs| && Balanced(env, txs, n, w, w', burned, used) && txs[n].sender.Some? && total == used + usedNow
    requires Exact(env, w') ==> Accounted(w', w'', TransactionToMessage(txs[n], env).value, env, burnedNow, usedNow)
    ensures Balanced(env, txs, n + 1, w, w'', burned + burnedNow, total)
  {
    if Exact(env, w) {
      TotalShrinks(w, w', txs, env, n, burned, used);
      BlockAccountedGrows(w, w', w'', txs, env, n, burned, used, burnedNow, usedNow, total);
    }
  }

  /** An applied transaction more. */
  lemma SettlingGrows(env: Env, txs: seq<Transaction>, x: Point, receipts: seq<Receipt>, books: seq<Books>, used: nat,
                      start: seq<Consumed>, consumed: seq<Consumed>, y: Point, y': Point, consumed': seq<Consumed>,
                      next: Receipt, book: Books)
    requires Settling(env, txs, x, receipts, books, used, start, consumed, y) && |receipts| < |txs|
    requires Balances(env, txs[|receipts|], y, used, consumed, y', consumed', next, book)
    ensures Settling(env, txs, x, receipts + [next], books + [book], next.cumulativeGasUsed, start, consumed', y')
  {
    BalancedGrows(env, txs, |books|, x.world, y.world, y'.world, AllBurned(books), book.burned,
                  used, next.gasUsed, next.cumulativeGasUsed);
    BooksGrow(start, books, book);
    DoneGrows(txs, env, receipts, used, consumed, y.world, next, consumed', y'.world);
  }

  /** Processes the next transaction: all promised so far holds with its receipt too, or it is the one that stops. */
  method Next(txs: seq<Transaction>, i: nat, env: Env, gp: GasPool, state: StateDB, usedGas: Word, evm: Evm,
              ghost x: Point, ghost points: seq<Point>, ghost receipts: seq<Receipt>, ghost books: seq<Books>,
              ghost start: seq<Consumed>)
    returns (err: ProcessError, receipt: Receipt, ghost book: Books)
    requires i == |receipts| < |txs| && |txs[i].data| <= MAX_UINT64 && x.gas <= MAX_UINT64 && Sound(evm)
    requires Sofar(evm, env, txs, x, points, receipts, books, usedGas, start, state.consumed,
                   Point(state.world, state.refund, gp.gas))
    modifies gp, state
    ensures err.Processed? ==>
              var y := Point(state.world, state.refund, gp.gas);
              && receipt.cumulativeGasUsed <= x.gas
              && Sofar(evm, env, txs, x, points + [y], receipts + [receipt], books + [book], receipt.cumulativeGasUsed,
                       start, state.consumed, y)
    ensures !err.Processed? ==> StoppedBy(env, points[i], txs, i, err) && state.consumed == old(state.consumed)
    ensures NoncesFit(state.world) && LedgerOk(state.consumed, state.world) && NoncesGrow(x.world, state.world)
    ensures Exact(env, x.world) && err.NotApplied? ==> err.error != InsufficientFundsForTransfer
  {
    receipt, book := Receipt(false, 0, 0), Books([], 0);
    var msg := TransactionToMessage(txs[i], env);
    if msg.None? {
      return InvalidSender(i), receipt, book;
    }
    ghost var y, consumed := Point(state.world, state.refund, gp.gas), state.consumed;
    if Exact(env, x.world) {
      TotalShrinks(x.world, y.world, txs, env, i, AllBurned(books), usedGas);
    }
    var txErr;
    txErr, receipt, book := ApplyTransaction(msg.value, env, gp, state, txs[i], usedGas, evm);
    if !txErr.NoError? {
      return NotApplied(i, txErr), receipt, book;
    }
    ghost var y' := Point(state.world, state.refund, gp.gas);
    SettlingGrows(env, txs, x, receipts, books, usedGas, start, consumed, y, y', state.consumed, receipt, book);
    KeptGrows(evm, env, txs, points, books, y', book);
    TraceGrows(evm, env, txs, x, points, receipts, y', receipt);
    err := Processed;
  }

  /**
   Processes the transactions in order and stops at the first that does not apply. The gas
   left in the pool and the gas used always add up to the block's gas limit.
   */
  method Process(gasLimit: Word, txs: seq<Transaction>, env: Env, state: StateDB, evm: Evm)
    returns (err: ProcessError, receipts: seq<Receipt>, usedGas: Word, ghost points: seq<Point>,
             ghost books: seq<Books>)
    requires Sound(evm) && NoncesFit(state.world) && LedgerOk(state.consumed, state.world)
    requires forall i | 0 <= i < |txs| :: |txs[i].data| <= MAX_UINT64
    modifies state
    ensures Trace(evm, env, txs, old(Point(state.world, state.refund, gasLimit)), points, receipts)
    ensures if err.Processed? then |receipts| == |txs| && points[|txs|].world == state.world
            else StoppedBy(env, points[|receipts|], txs, |receipts|, err)
    ensures usedGas == GasSum(receipts, |receipts|) <= gasLimit && Cumulative(receipts)
    ensures WithinLimits(txs, receipts, env) && NoReplay(txs, |receipts|, state.consumed)
    ensures |books| == |receipts| && Kept(evm, env, txs, points, books)
    ensures state.consumed == old(state.consumed) + AllTaken(books)
    ensures NoncesFit(state.world) && LedgerOk(state.consumed, state.world) && NoncesGrow(old(state.world), state.world)
    ensures Exact(env, old(state.world)) ==>
              && (err.NotApplied? ==> err.error != InsufficientFundsForTransfer)
              && (err.Processed? ==>
                    BlockAccounted(old(state.world), state.world, txs, env, |txs|, AllBurned(books), usedGas))
  {
    ghost var x, start := Point(state.world, state.refund, gasLimit), state.consumed;
    receipts, usedGas, points, books := [], 0, [x], [];
    var gp := new GasPool();
    gp.AddGas(gasLimit);
    for i := 0 to |txs|
      invariant |receipts| == i && fresh(gp)
      invariant Sofar(evm, env, txs, x, points, receipts, books, usedGas, start, state.consumed,
                      Point(state.world, state.refund, gp.gas))
    {
      var receipt;
      ghost var book;
      err, receipt, book := Next(txs, i, env, gp, state, usedGas, evm, x, points, receipts, books, start);
      if !err.Processed? {
        return;
      }
      receipts, books := receipts + [receipt], books + [book];
      points := points + [Point(state.world, state.refund, gp.gas)];
      usedGas := receipt.cumulativeGasUsed;
    }
    err := Processed;
  }

  /** Everything about the transactions done so far that does not depend on where the block started. */
  ghost predicate Done(txs: seq<Transaction>, env: Env, receipts: seq<Receipt>, used: nat, consumed: seq<Consumed>,
                       w: World)
  {
    && used == GasSum(receipts, |receipts|) && Cumulative(receipts)
    && WithinLimits(txs, receipts, env) && NoReplay(txs, |receipts|, consumed)
    && NoncesFit(w) && LedgerOk(consumed, w)
  }

  lemma DoneGrows(txs: seq<Transaction>, env: Env, receipts: seq<Receipt>, used: nat, consumed: seq<Consumed>, w: World,
                  next: Receipt, consumed': seq<Consumed>, w': World)
    requires Done(txs, env, receipts, used, consumed, w) && NoncesFit(w') && LedgerOk(consumed', w')
    requires |receipts| < |txs| && next.cumulativeGasUsed == used + next.gasUsed && txs[|receipts|].sender.Some?
    requires next.gasUsed <= txs[|receipts|].gasLimit
             && (env.rules.prague ==> FloorOf(txs[|receipts|].data) <= next.gasUsed)
    requires consumed + [(txs[|receipts|].sender.value, txs[|receipts|].nonce)] <= consumed'
    ensures Done(txs, env, receipts + [next], next.cumulativeGasUsed, consumed', w')
  {
    NoReplayGrows(txs, |receipts|, consumed, consumed', w');
    CumulativeGrows(receipts, next);
  }
}
