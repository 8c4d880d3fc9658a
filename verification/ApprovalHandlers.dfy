/** Approving and rejecting API key requests in plugins/kuadrant-backend/src/router.ts: the single
    endpoints and the bulk loops. */
module ApprovalHandlers {
  import opened Wrappers
  import opened MergePatch
  import opened ProductHandlers

  /** A request for a key: the name in its apiProductRef, where it has one. */
  datatype KeyRequest = KeyRequest(productName: Option<string>)

  datatype Approval = Approval(namespace: string, request: string, approved: bool, reviewedBy: string)

  datatype Reviews = Reviews(products: map<Id, Json>, requests: map<Id, KeyRequest>, approvals: seq<Approval>)

  /** An entry of the bulk answer. */
  datatype Outcome = Outcome(id: Id, success: bool)

  function NewApproval(c: Caller, id: Id, approved: bool): Approval {
    Approval(id.namespace, id.name, approved, c.ref)
  }

  // ----- The single endpoints

  /** verifyApiKeyUpdatePermission: update-all needs no product; update-own needs the product to
      exist and to carry the caller's identity. */
  function VerifyUpdate(w: Reviews, c: Caller, namespace: string, productName: string): Answer {
    if KeyUpdateAll in c.may then Done
    else if KeyUpdateOwn !in c.may then Forbidden
    else if Id(namespace, productName) !in w.products then Failed
    else if Owns(c, w.products[Id(namespace, productName)]) then Done
    else Forbidden
  }

  predicate NamesProduct(w: Reviews, id: Id) {
    id in w.requests && w.requests[id].productName.Some? && w.requests[id].productName.value != ""
  }

  /** POST /requests/:namespace/:name/approve and .../reject; `created` says whether the API server
      takes the approval. */
  function Review(w: Reviews, c: Caller, id: Id, approved: bool, created: bool): (Reviews, Answer) {
    if !NamesProduct(w, id) then (w, Failed) else
    var allowed := VerifyUpdate(w, c, id.namespace, w.requests[id].productName.value);
    if allowed != Done then (w, allowed)
    else if !created then (w, Failed)
    else (w.(approvals := w.approvals + [NewApproval(c, id, approved)]), Done)
  }

  predicate SingleSucceeds(w: Reviews, c: Caller, id: Id, approved: bool, created: bool) {
    Review(w, c, id, approved, created).1 == Done
  }

  /** The single endpoint called for one entry after the other. */
  function Singles(w: Reviews, c: Caller, ids: seq<Id>, approved: bool, created: seq<bool>): Reviews
    requires |created| == |ids|
  {
    if ids == [] then w else
    var n := |ids| - 1;
    Review(Singles(w, c, ids[..n], approved, created[..n]), c, ids[n], approved, created[n]).0
  }

  // ----- One entry of a bulk request

  /** Approving looks at request and product only for callers without update-all. */
  predicate BulkApproves(w: Reviews, c: Caller, id: Id, created: bool) {
    && (KeyUpdateAll !in c.may ==>
          && NamesProduct(w, id)
          && var product := Id(id.namespace, w.requests[id].productName.value);
             product in w.products && Owns(c, w.products[product]))
    && created
  }

  /** Rejecting looks both up for every caller. */
  predicate BulkRejects(w: Reviews, c: Caller, id: Id, created: bool) {
    && id in w.requests && w.requests[id].productName.Some?
    && (var product := Id(id.namespace, w.requests[id].productName.value);
        product in w.products && (KeyUpdateAll !in c.may ==> Owns(c, w.products[product])))
    && created
  }

  predicate BulkSucceeds(w: Reviews, c: Caller, id: Id, approved: bool, created: bool) {
    if approved then BulkApproves(w, c, id, created) else BulkRejects(w, c, id, created)
  }

  /** The approvals that a bulk request creates, in list order. */
  function BulkApprovals(w: Reviews, c: Caller, ids: seq<Id>, approved: bool, created: seq<bool>): seq<Approval>
    requires |created| == |ids|
  {
    if ids == [] then [] else
    var n := |ids| - 1;
    BulkApprovals(w, c, ids[..n], approved, created[..n])
    + if BulkSucceeds(w, c, ids[n], approved, created[n]) then [NewApproval(c, ids[n], approved)] else []
  }

  function BulkOutcomes(w: Reviews, c: Caller, ids: seq<Id>, approved: bool, created: seq<bool>): seq<Outcome>
    requires |created| == |ids|
  {
    if ids == [] then [] else
    var n := |ids| - 1;
    BulkOutcomes(w, c, ids[..n], approved, created[..n])
    + [Outcome(ids[n], BulkSucceeds(w, c, ids[n], approved, created[n]))]
  }

  predicate MayReview(c: Caller) {
    KeyUpdateAll in c.may || KeyUpdateOwn in c.may
  }

  // ----- Bulk against single

  /** No product has the empty name. */
  ghost predicate NamesNotEmpty(w: Reviews) {
    forall id :: id in w.products ==> id.name != ""
  }

  /** Bulk approving an entry and the single endpoint agree, except that a caller with update-all
      can bulk-approve a request that does not exist or names no product. */
  lemma BulkApproveAgreesExactly(w: Reviews, c: Caller, id: Id, created: bool)
    requires MayReview(c)
    ensures (BulkSucceeds(w, c, id, true, created) <==> SingleSucceeds(w, c, id, true, created))
            <==> !(KeyUpdateAll in c.may && created && !NamesProduct(w, id))
  {
    hide Owns;
  }

  /** Bulk rejecting an entry and the single endpoint agree, except that a caller with update-all
      cannot bulk-reject a request whose product is gone. */
  lemma BulkRejectAgreesExactly(w: Reviews, c: Caller, id: Id, created: bool)
    requires MayReview(c) && NamesNotEmpty(w)
    ensures (BulkSucceeds(w, c, id, false, created) <==> SingleSucceeds(w, c, id, false, created))
            <==> !(&& KeyUpdateAll in c.may && created && NamesProduct(w, id)
                   && Id(id.namespace, w.requests[id].productName.value) !in w.products)
  {
    hide Owns;
    if id in w.requests && w.requests[id].productName == Some("") {
      assert Id(id.namespace, "") !in w.products;
    }
  }

  const ADMIN := Caller("user:default/a", {KeyUpdateAll})

  /** With update-all, a request that does not exist is approved in bulk and not by the single
      endpoint; and a request whose product is gone is rejected by the single endpoint and not in
      bulk. */
  lemma BulkDiffers()
    ensures var id, none := Id("n", "q"), Reviews(map[], map[], []);
            var orphan := none.(requests := map[id := KeyRequest(Some("p"))]);
            && BulkSucceeds(none, ADMIN, id, true, true) && !SingleSucceeds(none, ADMIN, id, true, true)
            && !BulkSucceeds(orphan, ADMIN, id, false, true) && SingleSucceeds(orphan, ADMIN, id, false, true)
  {
    var id := Id("n", "q");
    var orphan := Reviews(map[], map[id := KeyRequest(Some("p"))], []);
    assert NamesProduct(orphan, id);
  }

  /** A review changes nothing that decides about later reviews. */
  lemma {:induction false} SinglesKeepState(w: Reviews, c: Caller, ids: seq<Id>, approved: bool, created: seq<bool>)
    requires |created| == |ids|
    ensures Singles(w, c, ids, approved, created).products == w.products
    ensures Singles(w, c, ids, approved, created).requests == w.requests
  {
    if ids != [] {
      var n := |ids| - 1;
      SinglesKeepState(w, c, ids[..n], approved, created[..n]);
    }
  }

  /** For a caller without update-all, a bulk approval or rejection of any list, repeated entries
      included, does exactly what the single endpoint does when it is called for one entry
      after the other: the failures of some entries do not affect the others. */
  lemma {:induction false} BulkIsSingles(w: Reviews, c: Caller, ids: seq<Id>, approved: bool, created: seq<bool>)
    requires |created| == |ids| && MayReview(c) && KeyUpdateAll !in c.may
    requires !approved ==> NamesNotEmpty(w)
    ensures Singles(w, c, ids, approved, created).approvals ==
            w.approvals + BulkApprovals(w, c, ids, approved, created)
    ensures forall i :: 0 <= i < |ids| ==>
              (BulkSucceeds(w, c, ids[i], approved, created[i]) <==> SingleSucceeds(w, c, ids[i], approved, created[i]))
  {
    hide BulkSucceeds, Owns;
    if ids != [] {
      var n := |ids| - 1;
      BulkIsSingles(w, c, ids[..n], approved, created[..n]);
      SinglesKeepState(w, c, ids[..n], approved, created[..n]);
      if approved {
        BulkApproveAgreesExactly(w, c, ids[n], created[n]);
      } else {
        BulkRejectAgreesExactly(w, c, ids[n], created[n]);
      }
      forall i | 0 <= i < |ids|
        ensures BulkSucceeds(w, c, ids[i], approved, created[i]) <==> SingleSucceeds(w, c, ids[i], approved, created[i])
      {
        if i < n {
          assert ids[..n][i] == ids[i] && created[..n][i] == created[i];
        }
      }
    }
  }

  // ----- Who approves what

  /** The request names a product in its own namespace that carries the caller's identity. */
  ghost predicate OwnsRequested(w: Reviews, c: Caller, id: Id) {
    exists name ::
      && name != "" && id in w.requests && w.requests[id].productName == Some(name)
      && Id(id.namespace, name) in w.products
      && At(w.products[Id(id.namespace, name)], ["metadata", "annotations", "backstage.io/owner"]) == Some(Str(c.ref))
  }

  /** The single endpoint succeeds exactly if the request names a product, the caller has update-all, or
      update-own and owns the product, and the API server takes the approval; which then is the
      caller's, for that request, and says what was asked for. */
  lemma SingleSucceedsExactly(w: Reviews, c: Caller, id: Id, approved: bool, created: bool)
    ensures SingleSucceeds(w, c, id, approved, created) <==>
              && created && (exists name :: name != "" && id in w.requests && w.requests[id].productName == Some(name))
              && (KeyUpdateAll in c.may || (KeyUpdateOwn in c.may && OwnsRequested(w, c, id)))
    ensures Review(w, c, id, approved, created).0 ==
            if SingleSucceeds(w, c, id, approved, created)
            then w.(approvals := w.approvals + [Approval(id.namespace, id.name, approved, c.ref)]) else w
  {
    hide At;
    assert NamesProduct(w, id) ==> w.requests[id].productName == Some(w.requests[id].productName.value);
  }

  /** What a bulk request creates: each approval is the caller's, for one of the entries, and says what
      was asked for; and without update-all the caller owns the product that its request names. */
  lemma {:induction false} BulkApprovalsOwned(w: Reviews, c: Caller, ids: seq<Id>, approved: bool, created: seq<bool>,
                                              a: Approval)
    requires |created| == |ids| && a in BulkApprovals(w, c, ids, approved, created)
    requires !approved ==> NamesNotEmpty(w)
    ensures Id(a.namespace, a.request) in ids && a.approved == approved && a.reviewedBy == c.ref
    ensures KeyUpdateAll !in c.may ==> OwnsRequested(w, c, Id(a.namespace, a.request))
  {
    hide At;
    var n := |ids| - 1;
    if a in BulkApprovals(w, c, ids[..n], approved, created[..n]) {
      BulkApprovalsOwned(w, c, ids[..n], approved, created[..n], a);
    } else {
      assert ids[n] in ids && a == NewApproval(c, ids[n], approved);
      if KeyUpdateAll !in c.may {
        var name := w.requests[ids[n]].productName.value;
        assert w.requests[ids[n]].productName == Some(name) && Owns(c, w.products[Id(ids[n].namespace, name)]);
      }
    }
  }

  /** Over every run of the product handlers from a cluster without products: without update-all, an
      approval is created, singly or in bulk, only if the caller created the product. */
  lemma ApprovedByCreator(keys: map<Id, string>, requests: seq<Request>, w: Reviews, c: Caller,
                          ids: seq<Id>, approved: bool, created: seq<bool>, a: Approval)
    requires w.products == Run(Cluster(map[], keys), map[], requests).0.products
    requires |created| == |ids| && KeyUpdateAll !in c.may
    requires || a in BulkApprovals(w, c, ids, approved, created)
             || (a !in w.approvals && a in Singles(w, c, ids, approved, created).approvals)
    ensures var creators := Run(Cluster(map[], keys), map[], requests).1;
            exists name ::
              && Id(a.namespace, a.request) in w.requests
              && w.requests[Id(a.namespace, a.request)].productName == Some(name)
              && Id(a.namespace, name) in creators && creators[Id(a.namespace, name)] == c.ref
  {
    hide Run, At, Singles, BulkApprovals;
    OwnerIsCreator(keys, requests);
    NamesStayNonEmpty(Cluster(map[], keys), map[], requests);
    if a in BulkApprovals(w, c, ids, approved, created) {
      BulkApprovalsOwned(w, c, ids, approved, created, a);
    } else {
      SinglesOwned(w, c, ids, approved, created, a);
    }
    var id := Id(a.namespace, a.request);
    var name :| && name != "" && id in w.requests && w.requests[id].productName == Some(name)
                && Id(id.namespace, name) in w.products
                && At(w.products[Id(id.namespace, name)], OWNER_PATH) == Some(Str(c.ref));
    assert OwnerOf(w.products[Id(id.namespace, name)]) == Some(Str(c.ref));
  }

  lemma {:induction false} NamesStayNonEmpty(w: Cluster, creators: map<Id, string>, requests: seq<Request>)
    requires forall id :: id in w.products ==> id.name != ""
    ensures forall id :: id in Run(w, creators, requests).0.products ==> id.name != ""
    decreases |requests|
  {
    hide HasTarget, Parse, FinalPatch, Patched, At, Recorded;
    if requests != [] {
      NamesStayNonEmpty(Handle(w, requests[0]).0, Recorded(w, creators, requests[0]), requests[1..]);
    }
  }

  lemma {:induction false} SinglesOwned(w: Reviews, c: Caller, ids: seq<Id>, approved: bool, created: seq<bool>,
                                        a: Approval)
    requires |created| == |ids| && KeyUpdateAll !in c.may
    requires a !in w.approvals && a in Singles(w, c, ids, approved, created).approvals
    ensures OwnsRequested(w, c, Id(a.namespace, a.request))
  {
    hide Review;
    if ids != [] {
      var n := |ids| - 1;
      var before := Singles(w, c, ids[..n], approved, created[..n]);
      SinglesKeepState(w, c, ids[..n], approved, created[..n]);
      SingleSucceedsExactly(before, c, ids[n], approved, created[n]);
      if a in before.approvals {
        SinglesOwned(w, c, ids[..n], approved, created[..n], a);
      }
    }
  }

  function Successes(outcomes: seq<Outcome>): nat {
    if outcomes == [] then 0
    else Successes(outcomes[..|outcomes| - 1]) + if outcomes[|outcomes| - 1].success then 1 else 0
  }

  /** As many entries succeed as approvals are created. */
  lemma {:induction false} SuccessesAreApprovals(w: Reviews, c: Caller, ids: seq<Id>, approved: bool,
                                                 created: seq<bool>)
    requires |created| == |ids|
    ensures Successes(BulkOutcomes(w, c, ids, approved, created)) == |BulkApprovals(w, c, ids, approved, created)|
    ensures |BulkOutcomes(w, c, ids, approved, created)| == |ids|
    ensures forall i :: 0 <= i < |ids| ==>
              BulkOutcomes(w, c, ids, approved, created)[i] ==
              Outcome(ids[i], BulkSucceeds(w, c, ids[i], approved, created[i]))
  {
    hide BulkSucceeds;
    if ids != [] {
      var n := |ids| - 1;
      SuccessesAreApprovals(w, c, ids[..n], approved, created[..n]);
      var before := BulkOutcomes(w, c, ids[..n], approved, created[..n]);
      var all := BulkOutcomes(w, c, ids, approved, created);
      assert all[..n] == before;
      forall i | 0 <= i < |ids|
        ensures all[i] == Outcome(ids[i], BulkSucceeds(w, c, ids[i], approved, created[i]))
      {
        if i < n {
          assert all[i] == before[i] && ids[..n][i] == ids[i] && created[..n][i] == created[i];
        }
      }
    }
  }

  // ----- The handlers

  class ReviewRouter {
    const products: map<Id, Json>
    const requests: map<Id, KeyRequest>
    var approvals: seq<Approval>

    function Value(): Reviews
      reads this
    {
      Reviews(products, requests, approvals)
    }

    constructor (products: map<Id, Json>, requests: map<Id, KeyRequest>)
      ensures Value() == Reviews(products, requests, [])
    {
      this.products, this.requests, approvals := products, requests, [];
    }

    method PostReview(c: Caller, id: Id, approved: bool, created: bool) returns (answer: Answer)
      modifies this
      ensures (Value(), answer) == Review(old(Value()), c, id, approved, created)
    {
      hide Owns;
      if id !in requests {
        return Failed;
      }
      var productName := requests[id].productName.GetOr("");
      if productName == "" {
        return Failed;
      }
      answer := VerifyUpdate(Value(), c, id.namespace, productName);
      if answer != Done {
        return;
      }
      if !created {
        return Failed;
      }
      approvals := approvals + [NewApproval(c, id, approved)];
    }

    /** The try block of the bulk approval loop; false for each way into a failed entry. */
    method ApproveEntry(c: Caller, id: Id, created: bool) returns (success: bool)
      modifies this
      ensures success <==> BulkSucceeds(old(Value()), c, id, true, created)
      ensures approvals == old(approvals) + if success then [NewApproval(c, id, true)] else []
    {
      hide Owns;
      if KeyUpdateAll !in c.may {
        if id !in requests || requests[id].productName.GetOr("") == "" {
          return false;
        }
        var product := Id(id.namespace, requests[id].productName.value);
        if product !in products || !Owns(c, products[product]) {
          return false;
        }
      }
      if !created {
        return false;
      }
      approvals := approvals + [NewApproval(c, id, true)];
      success := true;
    }

    /** The try block of the bulk rejection loop. */
    method RejectEntry(c: Caller, id: Id, created: bool) returns (success: bool)
      modifies this
      ensures success <==> BulkSucceeds(old(Value()), c, id, false, created)
      ensures approvals == old(approvals) + if success then [NewApproval(c, id, false)] else []
    {
      hide Owns;
      if id !in requests || requests[id].productName.None? {
        return false;
      }
      var product := Id(id.namespace, requests[id].productName.value);
      if product !in products {
        return false;
      }
      if KeyUpdateAll !in c.may && !Owns(c, products[product]) {
        return false;
      }
      if !created {
        return false;
      }
      approvals := approvals + [NewApproval(c, id, false)];
      success := true;
    }

    /** POST /requests/bulk-approve and /requests/bulk-reject: one result per entry. */
    method BulkReview(c: Caller, ids: seq<Id>, approved: bool, created: seq<bool>)
      returns (answer: Answer, results: seq<Outcome>)
      requires |created| == |ids|
      modifies this
      ensures answer == if MayReview(c) then Done else Forbidden
      ensures answer == Forbidden ==> results == [] && approvals == old(approvals)
      ensures answer == Done ==>
                && results == BulkOutcomes(old(Value()), c, ids, approved, created)
                && approvals == old(approvals) + BulkApprovals(old(Value()), c, ids, approved, created)
    {
      hide BulkSucceeds;
      results := [];
      if KeyUpdateAll !in c.may && KeyUpdateOwn !in c.may {
        return Forbidden, [];
      }
      for i := 0 to |ids|
        invariant results == BulkOutcomes(old(Value()), c, ids[..i], approved, created[..i])
        invariant approvals == old(approvals) + BulkApprovals(old(Value()), c, ids[..i], approved, created[..i])
      {
        assert ids[..i + 1][..i] == ids[..i] && created[..i + 1][..i] == created[..i];
        var success: bool;
        SuccessIndependent(old(Value()), Value(), c, ids[i], approved, created[i]);
        if approved {
          success := ApproveEntry(c, ids[i], created[i]);
        } else {
          success := RejectEntry(c, ids[i], created[i]);
        }
        results := results + [Outcome(ids[i], success)];
      }
      assert ids[..|ids|] == ids && created[..|ids|] == created;
      answer := Done;
    }
  }

  lemma SuccessIndependent(w: Reviews, w': Reviews, c: Caller, id: Id, approved: bool, created: bool)
    requires w.products == w'.products && w.requests == w'.requests
    ensures BulkSucceeds(w, c, id, approved, created) <==> BulkSucceeds(w', c, id, approved, created)
  {
    hide Owns;
  }
}
