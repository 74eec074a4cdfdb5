/** Invoke identifiers of confirmed requests in flight: allocation by a wrapping search, and
    completion. */
module Invokes {
  import opened Wire
  import opened Apdu
  import opened ServiceTables
  import MachineSpec

  // --- the search ---

  /** The first unused identifier among the given number of candidates from next on. */
  function FirstFree(next: byte, used: set<byte>, tries: nat): (id: Option<byte>)
    ensures id.Some? ==> id.value !in used
    decreases tries
  {
    if tries == 0 then None
    else if next !in used then Some(next)
    else FirstFree(Next(next), used, tries - 1)
  }

  /** The identifiers below k. */
  function Below(k: nat): (s: set<byte>)
    requires k <= 256
    ensures |s| == k
    ensures forall b: byte :: b in s <==> b < k
    decreases k
  {
    if k == 0 then {} else Below(k - 1) + {k - 1}
  }

  lemma SubsetSize(a: set<byte>, b: set<byte>)
    requires a <= b
    ensures |a| <= |b|
    ensures |a| == |b| ==> a == b
    decreases |a|
  {
    if a != {} {
      var x :| x in a;
      SubsetSize(a - {x}, b - {x});
      assert a == (a - {x}) + {x} && b == (b - {x}) + {x};
    }
  }

  /** There are 256 identifiers: fewer in use means that one is free. */
  lemma SomeFree(used: set<byte>)
    ensures |used| <= 256
    ensures |used| < 256 <==> exists id: byte :: id !in used
  {
    SubsetSize(used, Below(256));
    if |used| < 256 {
      assert used != Below(256);
    }
  }

  /** How far id lies ahead of next. */
  function Ahead(next: byte, id: byte): (d: nat)
    ensures d < 256 && (d == 0 <==> id == next)
  {
    if id >= next then id - next else id - next + 256
  }

  /** The search finds the free identifier that lies least far ahead, if it tries far enough. */
  lemma {:induction false} SearchFinds(next: byte, used: set<byte>, tries: nat, id: byte)
    requires id !in used && Ahead(next, id) < tries
    ensures var f := FirstFree(next, used, tries); f.Some? && Ahead(next, f.value) <= Ahead(next, id)
    decreases tries
  {
    if next in used {
      SearchFinds(Next(next), used, tries - 1, id);
    }
  }

  /** The search of 256 candidates succeeds exactly when an identifier is free, and finds the
      next one in cyclic order. */
  lemma SearchIsExact(next: byte, used: set<byte>)
    ensures FirstFree(next, used, 256).Some? <==> |used| < 256
    ensures var f := FirstFree(next, used, 256);
            f.Some? ==> forall id: byte :: id !in used ==> Ahead(next, f.value) <= Ahead(next, id)
  {
    SomeFree(used);
    forall id: byte | id !in used
      ensures FirstFree(next, used, 256).Some? && Ahead(next, FirstFree(next, used, 256).value) <= Ahead(next, id)
    {
      SearchFinds(next, used, 256, id);
    }
  }

  /** An identifier just issued is issued again only when every other one is in flight. */
  lemma ReissuedLast(id: byte, used: set<byte>)
    requires FirstFree(Next(id), used, 256) == Some(id)
    ensures used == Below(256) - {id}
  {
    SearchIsExact(Next(id), used);
    forall k: byte | k != id
      ensures k in used
    {
      assert Ahead(Next(id), id) == 255;
      assert Ahead(Next(id), k) < 255;
    }
  }

  // --- transactions ---

  datatype InvokeError = Closed | NoneAvailable | UnexpectedReply | NoSuchTransaction

  /** Whom a request is for, which service it asks for, and whether it has gone out and its machine
      awaits the answer. */
  datatype Transaction = Transaction(peer: Address, serviceChoice: byte, awaiting: bool)

  /** What the caller of a request is told in the end. */
  datatype Confirmation =
    | Acknowledged(payload: Option<seq<byte>>)
    | Refused(pduType: PduType)
    | NotSupported

  /** The reply is a segmented one, which a requester does not take. */
  predicate Segmented(a: InboundAPDU) {
    a.pduType == ComplexACK && a.segmentedMessage
  }

  function Confirms(a: InboundAPDU): Confirmation {
    if Segmented(a) then NotSupported
    else if a.pduType == SimpleACK then Acknowledged(None)
    else if a.pduType == ComplexACK then Acknowledged(Some(a.payload))
    else Refused(a.pduType)
  }

  function AbortFor(a: InboundAPDU): OutboundAPDU {
    Outbound(Abort).(invokeID := a.invokeID, payload := [MachineSpec.REASON_SEGMENTATION_NOT_SUPPORTED])
  }

  const REQUEST_HEADER_LENGTH: nat := 4

  /** The request fits one APDU; no limit is given by 0. */
  predicate FitsOne(length: nat, maxAPDU: nat) {
    maxAPDU == 0 || REQUEST_HEADER_LENGTH + length <= maxAPDU
  }

  /** Only replies that name a service are compared with the one requested. */
  predicate Matches(tx: Transaction, src: Address, a: InboundAPDU) {
    && tx.peer == src
    && (a.pduType in {SimpleACK, ComplexACK, ErrorPdu} ==> a.serviceChoice == tx.serviceChoice)
  }

  /** A reply concludes the transaction it belongs to if that awaits one. */
  function Concludes(pending: map<byte, Transaction>, src: Address, a: InboundAPDU): Option<Confirmation> {
    if a.invokeID in pending && Matches(pending[a.invokeID], src, a) && pending[a.invokeID].awaiting
    then Some(Confirms(a)) else None
  }

  /** What is sent back for it. */
  function Rebuffs(pending: map<byte, Transaction>, src: Address, a: InboundAPDU): Option<OutboundAPDU> {
    if a.invokeID in pending && Matches(pending[a.invokeID], src, a) && Segmented(a) then Some(AbortFor(a)) else None
  }

  lemma NextWraps(b: byte, n: nat)
    requires b == n % 256
    ensures Next(b) == (n + 1) % 256
  {
  }

  class Requester {
    const maxConcurrent: nat
    var closed: bool
    var nextInvokeID: byte
    var transactions: map<byte, Transaction>

    constructor (maxConcurrent: nat)
      ensures this.maxConcurrent == maxConcurrent && !closed && nextInvokeID == 0 && transactions == map[]
    {
      this.maxConcurrent := maxConcurrent;
      closed, nextInvokeID, transactions := false, 0, map[];
    }

    /** Succeeds exactly when open and below both limits; the identifier was not in use, and no
        other transaction is touched. */
    method StartTransaction(peer: Address, serviceChoice: byte) returns (r: Result<byte, InvokeError>)
      modifies this
      ensures closed == old(closed)
      ensures r.Ok? <==> !old(closed) && |old(transactions)| < maxConcurrent && |old(transactions)| < 256
      ensures r.Ok? ==>
        && r.value !in old(transactions)
        && Some(r.value) == FirstFree(old(nextInvokeID), old(transactions).Keys, 256)
        && transactions == old(transactions)[r.value := Transaction(peer, serviceChoice, false)]
        && nextInvokeID == Next(r.value)
      ensures r.Err? ==>
        && transactions == old(transactions) && nextInvokeID == old(nextInvokeID)
        && r.error == if old(closed) then Closed else NoneAvailable
    {
      SomeFree(transactions.Keys);
      SearchIsExact(nextInvokeID, transactions.Keys);
      assert |transactions.Keys| == |transactions|;
      if closed {
        return Err(Closed);
      }
      if |transactions| >= maxConcurrent {
        return Err(NoneAvailable);
      }
      ghost var start := nextInvokeID;
      var tried: int := 0;
      while tried < 256
        invariant 0 <= tried <= 256 && closed == old(closed) && transactions == old(transactions)
        invariant nextInvokeID == ((start as int) + tried) % 256
        invariant FirstFree(start, transactions.Keys, 256) == FirstFree(nextInvokeID, transactions.Keys, 256 - tried)
      {
        var id := nextInvokeID;
        NextWraps(nextInvokeID, (start as int) + tried);
        nextInvokeID := Next(nextInvokeID);
        tried := tried + 1;
        if id in transactions {
          continue;
        }
        transactions := transactions[id := Transaction(peer, serviceChoice, false)];
        return Ok(id);
      }
      r := Err(NoneAvailable);
    }

    method FinishTransaction(id: byte)
      modifies this`transactions
      ensures transactions == old(transactions) - {id}
    {
      transactions := transactions - {id};
    }

    /** A request that fits goes out and awaits its answer; one that does not ends there. */
    method SendRequest(id: byte, length: nat, maxAPDU: nat) returns (sent: bool)
      requires id in transactions && !transactions[id].awaiting
      modifies this`transactions
      ensures sent <==> maxAPDU == 0 || 4 + length <= maxAPDU
      ensures transactions == if sent then old(transactions)[id := old(transactions)[id].(awaiting := true)]
                              else old(transactions) - {id}
    {
      if !FitsOne(length, maxAPDU) {
        FinishTransaction(id);
        return false;
      }
      transactions := transactions[id := transactions[id].(awaiting := true)];
      sent := true;
    }

    /** A reply ends the transaction it belongs to, if that awaits one, and no other; a stray one
        ends none. A segmented reply is answered by an abort either way. */
    method CompleteTransaction(src: Address, a: InboundAPDU)
      returns (confirm: Option<Confirmation>, abort: Option<OutboundAPDU>)
      requires a.pduType in {SimpleACK, ComplexACK, ErrorPdu, Reject, Abort}
      modifies this`transactions
      ensures confirm == Concludes(old(transactions), src, a) && abort == Rebuffs(old(transactions), src, a)
      ensures transactions == if confirm.Some? then old(transactions) - {a.invokeID} else old(transactions)
    {
      confirm, abort := None, None;
      if a.invokeID !in transactions || !Matches(transactions[a.invokeID], src, a) {
        return;
      }
      if Segmented(a) {
        abort := Some(AbortFor(a));
      }
      if transactions[a.invokeID].awaiting {
        FinishTransaction(a.invokeID);
        confirm := Some(Confirms(a));
      }
    }

    method Close() returns (failed: map<byte, Transaction>)
      modifies this
      ensures closed && nextInvokeID == old(nextInvokeID)
      ensures failed == (if old(closed) then map[] else old(transactions))
      ensures transactions == if old(closed) then old(transactions) else map[]
    {
      failed := map[];
      if !closed {
        failed := transactions;
        closed, transactions := true, map[];
      }
    }
  }
}
