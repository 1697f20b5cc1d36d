/** `RFQController` and `RFQResponseController`: customers open requests for
    quotation and close their own; suppliers answer open ones. */
module Rfqs {
  import opened Wrappers
  import opened Entities
  import Text

  const MaxTitle: nat := 255

  /** An RFQ together with its id, as a response body. */
  datatype RfqRow = RfqRow(id: nat, rfq: Rfq)

  // ---------------------------------------------------------------------------
  // RFQController::store

  /** `POST /rfqs`. A new RFQ takes the table's default status, `open`. */
  function Create(s: Store, a: Actor, title: string, description: Option<string>): (r: Reply<RfqRow>)
    ensures a.role != Customer ==> r.status == 403 && r.store == s
    ensures a.role == Customer && a.customerId.None? ==> r.status == 400 && r.store == s
    ensures r.status != 201 ==> r.store == s
    ensures a.role == Customer && a.customerId.Some? && !Text.Filled(title) ==> r.status == 422 && r.store == s
    ensures r.status == 201 <==> a.role == Customer && a.customerId.Some? && Text.Filled(title) && |title| <= MaxTitle
    ensures r.store.(rfqs := s.rfqs) == s
    ensures r.status == 201 ==>
      && r.body.Data? && r.body.value.id == |s.rfqs|
      && r.store.rfqs == s.rfqs + [r.body.value.rfq]
      && r.body.value.rfq.customerId == a.customerId.value
      && r.body.value.rfq.title == title
      && Text.Filled(r.body.value.rfq.title) && |r.body.value.rfq.title| <= MaxTitle
      && r.body.value.rfq.status == Open
  {
    if a.role != Customer then Reply(s, 403, Note("Only customers can create RFQs"))
    else if a.customerId.None? then Reply(s, 400, Note("Customer profile not found"))
    else if !(Text.Filled(title) && |title| <= MaxTitle) then Reply(s, 422, Note(ValidationFailed))
    else
      var rfq := Rfq(a.customerId.value, title, description, Open);
      Reply(s.(rfqs := s.rfqs + [rfq]), 201, Data(RfqRow(|s.rfqs|, rfq)))
  }

  // ---------------------------------------------------------------------------
  // RFQController::index

  /** The open RFQs from position `from` on, in id order. */
  function OpenFrom(rfqs: seq<Rfq>, from: nat): (r: seq<RfqRow>)
    requires from <= |rfqs|
    ensures forall k | 0 <= k < |r| :: from <= r[k].id < |rfqs| && rfqs[r[k].id] == r[k].rfq && r[k].rfq.status == Open
    ensures forall k, l | 0 <= k < l < |r| :: r[k].id < r[l].id
    decreases |rfqs| - from
  {
    if from == |rfqs| then []
    else (if rfqs[from].status == Open then [RfqRow(from, rfqs[from])] else []) + OpenFrom(rfqs, from + 1)
  }

  /** `GET /rfqs`: the open RFQs. */
  function Index(s: Store): (r: seq<RfqRow>)
    ensures forall k | 0 <= k < |r| :: r[k].id < |s.rfqs| && s.rfqs[r[k].id] == r[k].rfq && r[k].rfq.status == Open
  {
    OpenFrom(s.rfqs, 0)
  }

  /** Every open RFQ from `from` on is listed. */
  lemma {:induction false} OpenFromComplete(rfqs: seq<Rfq>, from: nat, id: nat)
    requires from <= id < |rfqs| && rfqs[id].status == Open
    ensures exists k | 0 <= k < |OpenFrom(rfqs, from)| :: OpenFrom(rfqs, from)[k].id == id
    decreases |rfqs| - from
  {
    var head := if rfqs[from].status == Open then [RfqRow(from, rfqs[from])] else [];
    var rest := OpenFrom(rfqs, from + 1);
    assert OpenFrom(rfqs, from) == head + rest;
    if id == from {
      assert OpenFrom(rfqs, from)[0].id == id;
    } else {
      OpenFromComplete(rfqs, from + 1, id);
      var k :| 0 <= k < |rest| && rest[k].id == id;
      assert OpenFrom(rfqs, from)[|head| + k].id == id;
    }
  }

  /** The listing holds exactly the open RFQs: an RFQ is listed iff it is open. */
  lemma IndexExact(s: Store, id: nat)
    requires id < |s.rfqs|
    ensures (exists k | 0 <= k < |Index(s)| :: Index(s)[k].id == id) <==> s.rfqs[id].status == Open
  {
    var listed := Index(s);
    assert listed == OpenFrom(s.rfqs, 0);
    if s.rfqs[id].status == Open {
      OpenFromComplete(s.rfqs, 0, id);
      var k :| 0 <= k < |listed| && listed[k].id == id;
    }
  }

  /** A newly created RFQ shows up in the listing, as the row `store` returned. */
  lemma CreatedIsListed(s: Store, a: Actor, title: string, description: Option<string>)
    requires Create(s, a, title, description).status == 201
    ensures var r := Create(s, a, title, description);
      exists k | 0 <= k < |Index(r.store)| :: Index(r.store)[k] == r.body.value
  {
    var r := Create(s, a, title, description);
    var id := |s.rfqs|;
    IndexExact(r.store, id);
    var k :| 0 <= k < |Index(r.store)| && Index(r.store)[k].id == id;
    assert Index(r.store)[k] == r.body.value;
  }

  // ---------------------------------------------------------------------------
  // RFQController::close

  /** `POST /rfqs/{rfq}/close`. */
  function Close(s: Store, a: Actor, id: nat): (r: Reply<()>)
    ensures id >= |s.rfqs| ==> r.status == 404
    ensures r.status != 200 ==> r.store == s
    ensures r.store.(rfqs := s.rfqs) == s
    ensures r.status == 200 <==>
      id < |s.rfqs| && a.role == Customer && a.customerId == Some(s.rfqs[id].customerId)
    ensures r.status == 200 ==> r.store.rfqs == s.rfqs[id := s.rfqs[id].(status := Closed)]
  {
    if id >= |s.rfqs| then Reply(s, 404, Note("No query results for model [App\\Models\\RFQ]."))
    else if a.role != Customer then Reply(s, 403, Note("Unauthorized"))
    else if a.customerId.None? then Reply(s, 500, Note(NullProfile))
    else if s.rfqs[id].customerId != a.customerId.value then Reply(s, 403, Note("Unauthorized"))
    else Reply(s.(rfqs := s.rfqs[id := s.rfqs[id].(status := Closed)]), 200, Note("RFQ closed"))
  }

  /** Anyone but the owning customer (with a profile) is refused with 403 and
      the RFQ is left as it was. */
  lemma CloseByOthersRefused(s: Store, a: Actor, id: nat)
    requires id < |s.rfqs|
    requires a.role == Customer ==> a.customerId.Some?
    requires a.customerId != Some(s.rfqs[id].customerId) || a.role != Customer
    ensures var r := Close(s, a, id);
      r.status == 403 && r.store == s
  {
  }

  /** Closing twice leaves the store as closing once, and an RFQ that is
      already closed is not changed by closing it. */
  lemma CloseIdempotent(s: Store, a: Actor, id: nat)
    ensures var once := Close(s, a, id);
      Close(once.store, a, id) == once
    ensures id < |s.rfqs| && s.rfqs[id].status == Closed ==> Close(s, a, id).store == s
  {
    if id < |s.rfqs| && s.rfqs[id].status == Closed {
      assert s.rfqs[id := s.rfqs[id].(status := Closed)] == s.rfqs;
    }
  }

  // ---------------------------------------------------------------------------
  // RFQResponseController::store

  /** `POST /rfqs/{rfq}/responses`. */
  function Respond(s: Store, a: Actor, id: nat, price: real, quantity: int, message: Option<string>)
    : (r: Reply<RfqResponse>)
    ensures r.store.rfqs == s.rfqs
    ensures r.status != 201 ==> r.store == s
    ensures id < |s.rfqs| && a.role != Supplier ==> r.status == 403
    ensures id < |s.rfqs| && a.role == Supplier && s.rfqs[id].status != Open ==> r.status == 400
    ensures r.store.(responses := s.responses) == s
    ensures r.status == 201 <==>
      id < |s.rfqs| && a.role == Supplier && s.rfqs[id].status == Open
      && price >= 0.0 && quantity >= 1 && a.supplierId.Some?
    ensures r.status == 201 ==>
      && r.body.Data?
      && r.store.responses == s.responses + [r.body.value]
      && r.body.value == RfqResponse(id, a.supplierId.value, price, quantity, message)
  {
    if id >= |s.rfqs| then Reply(s, 404, Note("No query results for model [App\\Models\\RFQ]."))
    else if a.role != Supplier then Reply(s, 403, Note("Only suppliers can respond to RFQs"))
    else if s.rfqs[id].status != Open then Reply(s, 400, Note("RFQ is closed"))
    else if price < 0.0 || quantity < 1 then Reply(s, 422, Note(ValidationFailed))
    else if a.supplierId.None? then Reply(s, 500, Note(NullProfile))
    else
      var resp := RfqResponse(id, a.supplierId.value, price, quantity, message);
      Reply(s.(responses := s.responses + [resp]), 201, Data(resp))
  }

  /** Every stored response satisfies the response rules and points at an
      existing RFQ; responding keeps that true. */
  predicate ResponsesWellFormed(s: Store) {
    forall k | 0 <= k < |s.responses| ::
      s.responses[k].rfqId < |s.rfqs| && s.responses[k].price >= 0.0 && s.responses[k].quantity >= 1
  }

  lemma RespondKeepsWellFormed(s: Store, a: Actor, id: nat, price: real, quantity: int, message: Option<string>)
    requires ResponsesWellFormed(s)
    ensures ResponsesWellFormed(Respond(s, a, id, price, quantity, message).store)
  {
  }

  /** Once closed, an RFQ takes no more responses, whoever asks. */
  lemma ClosedTakesNoResponses(s: Store, a: Actor, b: Actor, id: nat, price: real, quantity: int, message: Option<string>)
    requires Close(s, a, id).status == 200
    ensures Respond(Close(s, a, id).store, b, id, price, quantity, message).status != 201
  {
  }
}
