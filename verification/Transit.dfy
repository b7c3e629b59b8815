/** Receiving transfers into stock (apps/inventory/models.py). */
module Transit {
  import opened Prelude
  import opened Ids

  datatype Status = Pending | InTransit | Received | Cancelled

  datatype Level = Level(available: real, inTransit: real)

  /** Destination branch and part. */
  type StockKey = (BranchId, PartId)

  type Stock = map<StockKey, Level>

  /** get_or_create: a missing level counts as empty. */
  function LevelAt(stock: Stock, k: StockKey): Level {
    if k in stock then stock[k] else Level(0.0, 0.0)
  }

  datatype TransferError = CancelledTransfer | QuantityNotPositive

  datatype TransferState = TransferState(key: StockKey, quantity: real, status: Status)

  function Arriving(t: TransferState, quantity: Option<real>): real {
    if quantity.Some? then quantity.value else t.quantity
  }

  /** A call is accepted once per transfer; repeats do nothing and bad calls fail. */
  predicate Accepted(t: TransferState, quantity: Option<real>) {
    !t.status.Received? && !t.status.Cancelled? && Arriving(t, quantity) > 0.0
  }

  function CallError(t: TransferState, quantity: Option<real>): Option<TransferError> {
    if t.status.Received? then None
    else if t.status.Cancelled? then Some(CancelledTransfer)
    else if Arriving(t, quantity) <= 0.0 then Some(QuantityNotPositive)
    else None
  }

  function Receive(l: Level, t: TransferState, quantity: Option<real>): Level {
    Level(l.available + Arriving(t, quantity), Max(0.0, l.inTransit - t.quantity))
  }

  /** Which calls are refused: a cancelled transfer, or one that is open but for no positive quantity. */
  lemma RefusedIff(t: TransferState, received: Option<real>)
    ensures var quantity := if received.Some? then received.value else t.quantity;
            && (CallError(t, received) == Some(CancelledTransfer) <==> t.status == Cancelled)
            && (CallError(t, received) == Some(QuantityNotPositive)
                <==> (t.status == Pending || t.status == InTransit) && quantity <= 0.0)
            && (Accepted(t, received) <==> (t.status == Pending || t.status == InTransit) && quantity > 0.0)
  {
  }

  /** An accepted call adds what it names, or else the whole transfer, and takes the transfer out of transit. */
  lemma ReceiptIsExact(l: Level, t: TransferState, received: Option<real>)
    ensures var after := Receive(l, t, received);
            && after.available - l.available == (if received.Some? then received.value else t.quantity)
            && (if l.inTransit < t.quantity then after.inTransit == 0.0
                else after.inTransit + t.quantity == l.inTransit)
  {
  }

  class StockTable {
    var levels: Stock

    constructor ()
      ensures levels == map[]
    {
      levels := map[];
    }
  }

  class Transfer {
    const key: StockKey
    const quantity: real
    var status: Status

    constructor (key: StockKey, quantity: real)
      ensures State() == TransferState(key, quantity, Pending)
    {
      this.key, this.quantity, status := key, quantity, Pending;
    }

    ghost function State(): TransferState
      reads this
    {
      TransferState(key, quantity, status)
    }

    method MarkReceived(stock: StockTable, received: Option<real>) returns (error: Option<TransferError>)
      modifies this, stock
      ensures error == CallError(old(State()), received)
      ensures State() == if Accepted(old(State()), received) then old(State()).(status := Received) else old(State())
      ensures stock.levels == if Accepted(old(State()), received)
                              then old(stock.levels)[key := Receive(LevelAt(old(stock.levels), key), old(State()),
                                                                    received)]
                              else old(stock.levels)
    {
      if status.Received? {
        return None;
      }
      if status.Cancelled? {
        return Some(CancelledTransfer);
      }
      var arriving := if received.Some? then received.value else quantity;
      if arriving <= 0.0 {
        return Some(QuantityNotPositive);
      }
      if key !in stock.levels {
        stock.levels := stock.levels[key := Level(0.0, 0.0)];
      }
      var level := stock.levels[key];
      level := level.(inTransit := Max(0.0, level.inTransit - quantity));
      level := level.(available := level.available + arriving);
      stock.levels := stock.levels[key := level];
      status := Received;
      return None;
    }
  }

  // ----- sequences of calls

  datatype Yard = Yard(stock: Stock, transfers: seq<TransferState>)

  /** A call on the transfer at some position, with an optional received quantity. */
  datatype Call = Call(transfer: nat, received: Option<real>)

  ghost predicate Takes(y: Yard, c: Call) {
    c.transfer < |y.transfers| && Accepted(y.transfers[c.transfer], c.received)
  }

  function Step(y: Yard, c: Call): Yard {
    if c.transfer < |y.transfers| && Accepted(y.transfers[c.transfer], c.received) then
      var t := y.transfers[c.transfer];
      Yard(y.stock[t.key := Receive(LevelAt(y.stock, t.key), t, c.received)],
           y.transfers[c.transfer := t.(status := Received)])
    else y
  }

  function Run(y: Yard, calls: seq<Call>): Yard {
    if calls == [] then y else Step(Run(y, calls[..|calls| - 1]), calls[|calls| - 1])
  }

  predicate Open(t: TransferState) {
    !t.status.Received? && !t.status.Cancelled?
  }

  /** What the first acceptable call on position i says has arrived; 0 if there is none. */
  function FirstReceived(t: TransferState, i: nat, calls: seq<Call>): (quantity: real)
    ensures quantity >= 0.0
  {
    if calls == [] then 0.0
    else
      var earlier, c := FirstReceived(t, i, calls[..|calls| - 1]), calls[|calls| - 1];
      if earlier > 0.0 then earlier
      else if c.transfer == i && Arriving(t, c.received) > 0.0 then Arriving(t, c.received)
      else 0.0
  }

  /** The transfer is open, and some call on it names a positive quantity. */
  predicate Arrives(t: TransferState, i: nat, calls: seq<Call>) {
    Open(t) && FirstReceived(t, i, calls) > 0.0
  }

  /** What the first n transfers bring to k, each by the first acceptable call on it. */
  function Arrivals(transfers: seq<TransferState>, n: nat, calls: seq<Call>, k: StockKey): real
    requires n <= |transfers|
  {
    if n == 0 then 0.0
    else
      var t := transfers[n - 1];
      Arrivals(transfers, n - 1, calls, k)
      + if t.key == k && Open(t) then FirstReceived(t, n - 1, calls) else 0.0
  }

  /** The quantities of those of the first n transfers to k that arrive. */
  function Discharged(transfers: seq<TransferState>, n: nat, calls: seq<Call>, k: StockKey): real
    requires n <= |transfers|
  {
    if n == 0 then 0.0
    else
      var t := transfers[n - 1];
      Discharged(transfers, n - 1, calls, k) + if t.key == k && Arrives(t, n - 1, calls) then t.quantity else 0.0
  }

  ghost predicate PositiveQuantities(transfers: seq<TransferState>) {
    forall i :: 0 <= i < |transfers| ==> transfers[i].quantity > 0.0
  }

  /** The transfers after some calls: those that arrive are received, the others are as they were. */
  ghost predicate ReceivedByCalls(before: seq<TransferState>, calls: seq<Call>, after: seq<TransferState>) {
    && |after| == |before|
    && forall i :: 0 <= i < |before| ==>
         after[i] == if Arrives(before[i], i, calls) then before[i].(status := Received) else before[i]
  }

  /** Which transfers end up received depends only on the transfers and the calls. */
  lemma {:induction false} CallsReceive(y: Yard, calls: seq<Call>)
    ensures ReceivedByCalls(y.transfers, calls, Run(y, calls).transfers)
  {
    if calls != [] {
      CallsReceive(y, calls[..|calls| - 1]);
    }
  }

  /** The last of the calls is the first acceptable one on an open transfer. */
  ghost predicate LastIsFirst(transfers: seq<TransferState>, calls: seq<Call>)
    requires calls != []
  {
    var c := calls[|calls| - 1];
    && c.transfer < |transfers| && Open(transfers[c.transfer]) && Arriving(transfers[c.transfer], c.received) > 0.0
    && FirstReceived(transfers[c.transfer], c.transfer, calls[..|calls| - 1]) == 0.0
  }

  lemma TakesIffFirst(y: Yard, calls: seq<Call>)
    requires calls != []
    ensures Takes(Run(y, calls[..|calls| - 1]), calls[|calls| - 1]) <==> LastIsFirst(y.transfers, calls)
  {
    CallsReceive(y, calls[..|calls| - 1]);
  }

  lemma {:induction false} SumsStep(transfers: seq<TransferState>, n: nat, calls: seq<Call>, k: StockKey)
    requires n <= |transfers| && calls != []
    ensures var before, c := calls[..|calls| - 1], calls[|calls| - 1];
            var counts := LastIsFirst(transfers, calls) && c.transfer < n && transfers[c.transfer].key == k;
            && Arrivals(transfers, n, calls, k)
               == Arrivals(transfers, n, before, k)
                  + (if counts then Arriving(transfers[c.transfer], c.received) else 0.0)
            && Discharged(transfers, n, calls, k)
               == Discharged(transfers, n, before, k) + if counts then transfers[c.transfer].quantity else 0.0
  {
    if n > 0 {
      SumsStep(transfers, n - 1, calls, k);
    }
  }

  lemma {:induction false} NoCallsNoSums(transfers: seq<TransferState>, n: nat, k: StockKey)
    requires n <= |transfers|
    ensures Arrivals(transfers, n, [], k) == 0.0 && Discharged(transfers, n, [], k) == 0.0
  {
    if n > 0 {
      NoCallsNoSums(transfers, n - 1, k);
    }
  }

  lemma {:induction false} DischargedIsNonNegative(transfers: seq<TransferState>, n: nat, calls: seq<Call>, k: StockKey)
    requires n <= |transfers| && PositiveQuantities(transfers)
    ensures Discharged(transfers, n, calls, k) >= 0.0
  {
    if n > 0 {
      DischargedIsNonNegative(transfers, n - 1, calls, k);
    }
  }

  /** What is left in transit once an amount has arrived: a negative record stays until something arrives. */
  function LeftInTransit(inTransit: real, discharged: real): real {
    if discharged == 0.0 then inTransit else Max(0.0, inTransit - discharged)
  }

  lemma LeftAfterMore(inTransit: real, discharged: real, more: real)
    requires discharged >= 0.0 && more > 0.0
    ensures Max(0.0, LeftInTransit(inTransit, discharged) - more) == LeftInTransit(inTransit, discharged + more)
  {
  }

  /** The stock at k after the calls, in terms of what was there, the transfers and the calls. */
  ghost predicate SettledAt(y: Yard, calls: seq<Call>, k: StockKey) {
    var before, after := LevelAt(y.stock, k), LevelAt(Run(y, calls).stock, k);
    var n := |y.transfers|;
    && after.inTransit == LeftInTransit(before.inTransit, Discharged(y.transfers, n, calls, k))
    && after.available == before.available + Arrivals(y.transfers, n, calls, k)
  }

  /**
   Whatever the calls, their order and their repeats: in-transit stock ends at the initial amount less
   every open transfer that some call receives, floored at zero once there is one, and available stock
   grows, once for each of them, by the quantity of the first acceptable call on it.
   */
  lemma {:induction false} RunsSettleStock(y: Yard, calls: seq<Call>, k: StockKey)
    requires PositiveQuantities(y.transfers)
    ensures SettledAt(y, calls, k)
  {
    var n := |y.transfers|;
    if calls == [] {
      NoCallsNoSums(y.transfers, n, k);
    } else {
      var before, c := calls[..|calls| - 1], calls[|calls| - 1];
      RunsSettleStock(y, before, k);
      CallsReceive(y, before);
      TakesIffFirst(y, calls);
      SumsStep(y.transfers, n, calls, k);
      if Takes(Run(y, before), c) && y.transfers[c.transfer].key == k {
        DischargedIsNonNegative(y.transfers, n, before, k);
        LeftAfterMore(LevelAt(y.stock, k).inTransit, Discharged(y.transfers, n, before, k),
                      y.transfers[c.transfer].quantity);
      }
    }
  }

  /** Every call names the transfer's full quantity. */
  ghost predicate InFull(transfers: seq<TransferState>, calls: seq<Call>) {
    forall i :: 0 <= i < |calls| && calls[i].transfer < |transfers| ==>
      Arriving(transfers[calls[i].transfer], calls[i].received) == transfers[calls[i].transfer].quantity
  }

  lemma {:induction false} FullArrivalsAreDischarges(transfers: seq<TransferState>, calls: seq<Call>, k: StockKey)
    requires InFull(transfers, calls)
    ensures Arrivals(transfers, |transfers|, calls, k) == Discharged(transfers, |transfers|, calls, k)
  {
    if calls == [] {
      NoCallsNoSums(transfers, |transfers|, k);
    } else {
      FullArrivalsAreDischarges(transfers, calls[..|calls| - 1], k);
      SumsStep(transfers, |transfers|, calls, k);
    }
  }

  /**
   Full arrivals leave the total unchanged exactly when no open transfer to the place is received, or
   the in-transit stock recorded before covers those that are.
   */
  lemma TotalIsConservedIff(y: Yard, calls: seq<Call>, k: StockKey)
    requires PositiveQuantities(y.transfers) && InFull(y.transfers, calls)
    ensures var before, after := LevelAt(y.stock, k), LevelAt(Run(y, calls).stock, k);
            var discharged := Discharged(y.transfers, |y.transfers|, calls, k);
            after.available + after.inTransit == before.available + before.inTransit
            <==> discharged == 0.0 || discharged <= before.inTransit
  {
    RunsSettleStock(y, calls, k);
    FullArrivalsAreDischarges(y.transfers, calls, k);
  }

  /** A transfer that has arrived is closed: no later call on it changes anything, whatever came in between. */
  lemma RepeatedCallsDoNothing(y: Yard, c: Call, between: seq<Call>, again: Option<real>)
    requires Takes(y, c)
    ensures var later := Run(Step(y, c), between); Step(later, Call(c.transfer, again)) == later
  {
    CallsReceive(Step(y, c), between);
  }
}
