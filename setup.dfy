/**
 * The webhook-subscription administration endpoint: `?action=create|view|delete`. The
 * id of the provider's subscription is kept in the singleton row `id = 1`; the
 * provider's answers and the database errors are inputs, and the result records the
 * provider calls made.
 */
module WebhookSetup {
  import opened Common
  import opened Tables

  /** A call to the provider's push-subscription API. */
  datatype Call = CreateSubscription | ViewSubscriptions | DeleteSubscription(id: int)

  /** What the provider and the database answer during one request. */
  datatype SetupInputs = SetupInputs(
    readFails: bool,          // reading the stored id errs with a code other than "no rows"
    created: Option<int>,     // the id of a created subscription, or `None` for a non-2xx reply
    storeFails: bool,         // the upsert of the stored id errs
    viewOk: bool,             // the provider lists its subscriptions
    removeOk: bool,           // the provider deletes the subscription
    localDeleteFails: bool)   // the delete of the stored row errs (logged only)

  /** The status, the provider calls made, the stored id afterwards, and the
      `subscription_id` returned by `create`. */
  datatype SetupResult = SetupResult(status: int, calls: seq<Call>, stored: Option<int>, replyId: Option<int>)

  /** A stored id the handler treats as present: JavaScript's truthiness, so `0` is absent. */
  function Present(stored: Option<int>): (b: bool)
    ensures b ==> stored.Some?
    ensures stored == Some(0) ==> !b
  {
    stored.Some? && stored.value != 0
  }

  /** `getStoredSubscriptionId`: the stored id (a missing row reads as `undefined`), or
      `None` when the read errs. */
  function ReadStored(stored: Option<int>, readFails: bool): (r: Option<Option<int>>)
    ensures r.None? <==> readFails
    ensures r.Some? ==> r.value == stored
  {
    if readFails then None else Some(stored)
  }

  function Create(stored: Option<int>, i: SetupInputs): (r: SetupResult)
    ensures r.status == 200 || r.status == 500
    ensures CreateSubscription in r.calls <==> !i.readFails && !Present(stored)
    ensures r.stored != stored ==> r.status == 200 && r.calls == [CreateSubscription] && r.stored == i.created
    ensures r.status == 200 && Present(stored) ==> r.replyId == stored && r.calls == []
    ensures i.readFails ==> r == SetupResult(500, [], stored, None)
    ensures !i.readFails && Present(stored) ==> r == SetupResult(200, [], stored, stored)
    ensures !i.readFails && !Present(stored) ==>
              && r.calls == [CreateSubscription]
              && (r.status == 200 <==> i.created.Some? && !i.storeFails)
              && (r.status == 200 ==> r.stored == i.created && r.replyId == i.created)
              && (r.status != 200 ==> r.stored == stored && r.replyId == None)
  {
    match ReadStored(stored, i.readFails)
    case None => SetupResult(500, [], stored, None)
    case Some(existing) =>
      if Present(existing) then SetupResult(200, [], stored, existing)
      else if i.created.None? then SetupResult(500, [CreateSubscription], stored, None)
      else if i.storeFails then SetupResult(500, [CreateSubscription], stored, None)
      else SetupResult(200, [CreateSubscription], i.created, i.created)
  }

  function View(stored: Option<int>, i: SetupInputs): (r: SetupResult)
    ensures r.stored == stored && r.calls == [ViewSubscriptions]
    ensures r.status == 200 <==> i.viewOk && !i.readFails
    ensures r.status != 200 ==> r.status == 500
  {
    if !i.viewOk then SetupResult(500, [ViewSubscriptions], stored, None)
    else match ReadStored(stored, i.readFails)
      case None => SetupResult(500, [ViewSubscriptions], stored, None)
      case Some(s) => SetupResult(200, [ViewSubscriptions], stored, None)
  }

  function Delete(stored: Option<int>, i: SetupInputs): (r: SetupResult)
    ensures r.status == 404 <==> !i.readFails && !Present(stored)
    ensures r.calls != [] <==> !i.readFails && Present(stored)
    ensures r.calls != [] ==> r.calls == [DeleteSubscription(stored.value)]
    ensures r.stored != stored ==> r.stored == None && r.status == 200
    ensures r.status == 200 <==> !i.readFails && Present(stored) && i.removeOk
    ensures i.readFails ==> r == SetupResult(500, [], stored, None)
    ensures r.status == 200 && !i.localDeleteFails ==> r.stored == None
    ensures i.localDeleteFails ==> r.stored == stored
    ensures r.replyId == None
  {
    match ReadStored(stored, i.readFails)
    case None => SetupResult(500, [], stored, None)
    case Some(s) =>
      if !Present(s) then SetupResult(404, [], stored, None)
      else if !i.removeOk then SetupResult(500, [DeleteSubscription(s.value)], stored, None)
      else SetupResult(200, [DeleteSubscription(s.value)], if i.localDeleteFails then stored else None, None)
  }

  /** The handler: the action chosen by the `action` parameter, each with its one method. */
  function Setup(stored: Option<int>, action: Option<string>, verb: string, i: SetupInputs): (r: SetupResult)
    ensures action !in {Some("create"), Some("view"), Some("delete")} ==> r == SetupResult(400, [], stored, None)
    ensures r.status == 405 <==>
              || (action == Some("create") && verb != "POST")
              || (action == Some("view") && verb != "GET")
              || (action == Some("delete") && verb != "DELETE")
    ensures r.status == 405 ==> r.calls == [] && r.stored == stored
  {
    if action == Some("create") then
      if verb != "POST" then SetupResult(405, [], stored, None) else Create(stored, i)
    else if action == Some("view") then
      if verb != "GET" then SetupResult(405, [], stored, None) else View(stored, i)
    else if action == Some("delete") then
      if verb != "DELETE" then SetupResult(405, [], stored, None) else Delete(stored, i)
    else SetupResult(400, [], stored, None)
  }

  /** A second `create` after a successful one makes no provider call and answers with the
      id the first stored, unless the provider happened to hand out the falsy id `0`. */
  lemma CreateTwice(stored: Option<int>, i1: SetupInputs, i2: SetupInputs)
    requires Setup(stored, Some("create"), "POST", i1).status == 200
    requires !i2.readFails
    ensures var r1 := Setup(stored, Some("create"), "POST", i1);
            var r2 := Setup(r1.stored, Some("create"), "POST", i2);
            Present(r1.stored) ==> r2.status == 200 && r2.calls == [] && r2.replyId == r1.replyId
    ensures var r1 := Setup(stored, Some("create"), "POST", i1);
            r1.stored == r1.replyId && |r1.calls| <= 1
  {
  }

  /** Over both requests at most one subscription is created. */
  lemma CreateTwiceOneSubscription(stored: Option<int>, i1: SetupInputs, i2: SetupInputs)
    requires !i2.readFails
    requires i1.created.Some? ==> i1.created.value != 0
    ensures var r1 := Setup(stored, Some("create"), "POST", i1);
            var r2 := Setup(r1.stored, Some("create"), "POST", i2);
            r1.status == 200 ==> multiset(r1.calls + r2.calls)[CreateSubscription] <= 1
  {
    var r1 := Setup(stored, Some("create"), "POST", i1);
    if r1.status == 200 {
      assert Present(r1.stored);
      var r2 := Setup(r1.stored, Some("create"), "POST", i2);
      assert r2.calls == [];
      assert r1.calls + r2.calls == r1.calls;
    }
  }

  /** The provider's subscription goes without the stored row when the local delete errs:
      the answer is still 200, and the stale id stays. */
  lemma DeleteLocalFailureKeepsId(stored: Option<int>, i: SetupInputs)
    requires Present(stored) && !i.readFails && i.removeOk && i.localDeleteFails
    ensures Setup(stored, Some("delete"), "DELETE", i) == SetupResult(200, [DeleteSubscription(stored.value)], stored, None)
  {
  }

  /** The handler on the store. */
  method HandleSetup(db: Store, action: Option<string>, verb: string, i: SetupInputs)
      returns (status: int, calls: seq<Call>, replyId: Option<int>)
    requires db.Valid()
    modifies db`subscription
    ensures db.Valid()
    ensures var r := Setup(old(db.subscription), action, verb, i);
            status == r.status && calls == r.calls && replyId == r.replyId && db.subscription == r.stored
  {
    var r := Setup(db.subscription, action, verb, i);
    db.subscription := r.stored;
    return r.status, r.calls, r.replyId;
  }
}
