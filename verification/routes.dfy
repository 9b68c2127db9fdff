/**
 The four booking handlers (backend/routes/bookings.js) as pure operations on
 an explicit store. Each returns the HTTP status code with its JSON envelope
 and the store as it is afterwards. The identity generator and the clock are
 parameters, and `online` says whether the database can be reached; when it
 cannot, the handler falls into its catch branch.
 */
module BookingRoutes {
  import opened Results
  import opened Bookings
  import opened Listing

  /** The stored bookings in insertion order. */
  type Store = seq<Booking>

  predicate HasId(store: Store, id: Id) {
    exists i :: 0 <= i < |store| && store[i].id == id
  }

  predicate UniqueIds(store: Store) {
    forall i, j :: 0 <= i < j < |store| ==> store[i].id != store[j].id
  }

  /** What the store guarantees of its contents: one record per identity, each as the schema left it. */
  predicate ValidStore(store: Store) {
    && UniqueIds(store)
    && forall i :: 0 <= i < |store| ==> IsNormalised(store[i])
  }

  /** The position of the first record with identity `id`, if any. */
  function Find(store: Store, id: Id): (r: Option<nat>)
    ensures r.None? <==> !HasId(store, id)
    ensures r.Some? ==> r.value < |store| && store[r.value].id == id
    ensures r.Some? ==> forall j :: 0 <= j < r.value ==> store[j].id != id
  {
    if store == [] then None
    else if store[0].id == id then Some(0)
    else
      assert forall i :: 0 < i < |store| ==> store[i] == store[1..][i - 1];
      match Find(store[1..], id)
      case None => None
      case Some(k) => Some(k + 1)
  }

  /** The `data` member of an envelope. */
  datatype Payload = NoData | One(booking: Booking) | Many(bookings: seq<Booking>)

  /** What the `error` member of a failure envelope reports. */
  datatype Fault =
    | Invalid(errors: seq<FieldError>)   // the schema's validation error
    | DuplicateId(id: Id)                // the store's unique index on the identity
    | StoreUnavailable                   // the database could not be reached

  /** The JSON body every handler answers with. */
  datatype Envelope = Envelope(
    success: bool,
    message: Option<string>,
    count: Option<nat>,
    data: Payload,
    error: Option<Fault>)

  datatype Response = Response(code: nat, body: Envelope)

  /** A handler's answer together with the store it leaves behind. */
  datatype Outcome = Outcome(response: Response, store: Store)

  const CreatedMessage := "Booking created successfully"
  const CreateFailedMessage := "Error creating booking"
  const ListFailedMessage := "Error fetching bookings"
  const NotFoundMessage := "Booking not found"
  const DeletedMessage := "Booking deleted successfully"
  const DeleteFailedMessage := "Error deleting booking"
  const StatusUpdatedMessage := "Booking status updated successfully"
  const StatusFailedMessage := "Error updating booking status"

  function Succeeded(code: nat, message: Option<string>, count: Option<nat>, data: Payload): Response {
    Response(code, Envelope(true, message, count, data, None))
  }

  function Failed(code: nat, message: string, fault: Option<Fault>): Response {
    Response(code, Envelope(false, Some(message), None, NoData, fault))
  }

  /** A success flag that agrees with the status code: `success` is set exactly on 2xx answers. */
  predicate FlagMatchesCode(r: Response) {
    r.body.success <==> 200 <= r.code < 300
  }

  /**
   POST /: validate the body, then insert it under the fresh identity. Any
   failure, validation or store, is answered 400 and leaves the store as it was.
   */
  function Create(store: Store, body: Candidate, freshId: Id, now: Timestamp, online: bool): (o: Outcome)
    ensures o.response.code == 201 || o.response.code == 400
    ensures FlagMatchesCode(o.response)
    ensures var n := Normalise(body, freshId, now);
            && (o.response.code == 201 <==> n.Success? && online && !HasId(store, freshId))
            && (o.response.code == 201 ==> o.store == store + [n.value] && o.response.body.data == One(n.value))
            && (n.Failure? ==> o.response.body.error == Some(Invalid(n.error)))
    ensures o.response.code == 400 ==> o.store == store && o.response.body.data == NoData
    ensures ValidStore(store) ==> ValidStore(o.store)
  {
    match Normalise(body, freshId, now)
    case Failure(errs) =>
      Outcome(Failed(400, CreateFailedMessage, Some(Invalid(errs))), store)
    case Success(b) =>
      if !online then
        Outcome(Failed(400, CreateFailedMessage, Some(StoreUnavailable)), store)
      else if HasId(store, freshId) then
        Outcome(Failed(400, CreateFailedMessage, Some(DuplicateId(freshId))), store)
      else
        AppendKeepsValid(store, b);
        Outcome(Succeeded(201, Some(CreatedMessage), None, One(b)), store + [b])
  }

  /** Appending a normalised record under an unused identity keeps a store valid. */
  lemma AppendKeepsValid(store: Store, b: Booking)
    requires !HasId(store, b.id)
    ensures ValidStore(store) && IsNormalised(b) ==> ValidStore(store + [b])
  {
    var after := store + [b];
    assert forall j :: 0 <= j < |store| ==> after[j] == store[j];
    assert after[|store|] == b;
  }

  /** GET /: every stored booking, newest first, with their number. */
  function List(store: Store, online: bool): (o: Outcome)
    ensures o.store == store
    ensures o.response.code == (if online then 200 else 500)
    ensures FlagMatchesCode(o.response)
    ensures online ==> o.response.body.data.Many?
    ensures online ==> var listed := o.response.body.data.bookings;
                       && multiset(listed) == multiset(store)
                       && NewestFirst(listed)
                       && o.response.body.count == Some(|listed|)
  {
    if !online then
      Outcome(Failed(500, ListFailedMessage, Some(StoreUnavailable)), store)
    else
      var listed := SortNewestFirst(store);
      Outcome(Succeeded(200, None, Some(|listed|), Many(listed)), store)
  }

  /** DELETE /:id: remove the record with that identity and answer with it. */
  function Delete(store: Store, id: Id, online: bool): (o: Outcome)
    ensures o.response.code == (if !online then 500 else if HasId(store, id) then 200 else 404)
    ensures FlagMatchesCode(o.response)
    ensures o.response.code != 200 ==> o.store == store && o.response.body.data == NoData
    ensures o.response.code == 200 ==>
              var i := Find(store, id).value;
              && o.response.body.data == One(store[i])
              && o.store == store[..i] + store[i + 1..]
              && multiset(o.store) == multiset(store) - multiset{store[i]}
    ensures ValidStore(store) && o.response.code == 200 ==> !HasId(o.store, id)
    ensures ValidStore(store) ==> ValidStore(o.store)
  {
    if !online then
      Outcome(Failed(500, DeleteFailedMessage, Some(StoreUnavailable)), store)
    else
      match Find(store, id)
      case None =>
        Outcome(Failed(404, NotFoundMessage, None), store)
      case Some(i) =>
        var rest := store[..i] + store[i + 1..];
        RemoveAtFacts(store, i);
        Outcome(Succeeded(200, Some(DeletedMessage), None, One(store[i])), rest)
  }

  /** Taking out the record at position `i` removes exactly that record, and only it. */
  lemma RemoveAtFacts(store: Store, i: nat)
    requires i < |store|
    ensures var rest := store[..i] + store[i + 1..];
            && multiset(rest) == multiset(store) - multiset{store[i]}
            && (ValidStore(store) ==> ValidStore(rest) && !HasId(rest, store[i].id))
  {
    assert store == store[..i] + [store[i]] + store[i + 1..];
    if ValidStore(store) {
      RemoveAtKeepsValid(store, i);
    }
  }

  lemma RemoveAtKeepsValid(store: Store, i: nat)
    requires i < |store| && ValidStore(store)
    ensures var rest := store[..i] + store[i + 1..];
            ValidStore(rest) && !HasId(rest, store[i].id)
  {
    var rest := store[..i] + store[i + 1..];
    forall j | 0 <= j < |rest| ensures rest[j] == store[if j < i then j else j + 1] {
    }
    forall j | 0 <= j < |rest| ensures IsNormalised(rest[j]) {
      assert rest[j] == store[if j < i then j else j + 1];
    }
    forall j, k | 0 <= j < k < |rest| ensures rest[j].id != rest[k].id {
      var j' := if j < i then j else j + 1;
      var k' := if k < i then k else k + 1;
      assert rest[j] == store[j'] && rest[k] == store[k'] && j' < k';
    }
    forall j | 0 <= j < |rest| ensures rest[j].id != store[i].id {
      var j' := if j < i then j else j + 1;
      assert rest[j] == store[j'] && j' != i;
    }
  }

  /** Two records that differ in nothing but `status`. */
  predicate SameButStatus(a: Booking, b: Booking) {
    a.(status := b.status) == b
  }

  /**
   PATCH /:id/status: the update validators check the new value against the
   enumeration before the store is queried, so an invalid value is a 500 even
   for an identity that does not exist. There is no transition guard: any
   enumerated value replaces any other.
   */
  function SetStatus(store: Store, id: Id, status: string, online: bool): (o: Outcome)
    ensures o.response.code ==
              (if !IsStatus(status) || !online then 500 else if HasId(store, id) then 200 else 404)
    ensures FlagMatchesCode(o.response)
    ensures !IsStatus(status) ==> o.response.body.error == Some(Invalid([NotInEnum(status)]))
    ensures o.response.code != 200 ==> o.store == store && o.response.body.data == NoData
    ensures o.response.code == 200 ==>
              var i := Find(store, id).value;
              && |o.store| == |store|
              && o.response.body.data == One(o.store[i])
              && o.store[i].status == status
              && (forall j :: 0 <= j < |store| ==> SameButStatus(store[j], o.store[j]))
              && (forall j :: 0 <= j < |store| && j != i ==> o.store[j] == store[j])
    ensures ValidStore(store) ==> ValidStore(o.store)
  {
    if !IsStatus(status) then
      Outcome(Failed(500, StatusFailedMessage, Some(Invalid([NotInEnum(status)]))), store)
    else if !online then
      Outcome(Failed(500, StatusFailedMessage, Some(StoreUnavailable)), store)
    else
      match Find(store, id)
      case None =>
        Outcome(Failed(404, NotFoundMessage, None), store)
      case Some(i) =>
        var updated := store[i].(status := status);
        Outcome(Succeeded(200, Some(StatusUpdatedMessage), None, One(updated)), store[i := updated])
  }

  /** With one record per identity, a status update touches exactly the record carrying that identity. */
  lemma SetStatusTouchesOnlyThatId(store: Store, id: Id, status: string, online: bool)
    requires ValidStore(store)
    requires SetStatus(store, id, status, online).response.code == 200
    ensures var after := SetStatus(store, id, status, online).store;
            && |after| == |store|
            && forall j :: 0 <= j < |store| ==>
                 after[j] == if store[j].id == id then store[j].(status := status) else store[j]
  {
    var i := Find(store, id).value;
    assert forall j :: 0 <= j < |store| && j != i ==> store[j].id != store[i].id;
  }

  /** A created booking shows up exactly once in the next listing, and nothing else changes. */
  lemma CreateThenList(store: Store, body: Candidate, freshId: Id, now: Timestamp)
    requires ValidStore(store)
    requires Create(store, body, freshId, now, true).response.code == 201
    ensures var b := Normalise(body, freshId, now).value;
            var listed := List(Create(store, body, freshId, now, true).store, true).response.body.data.bookings;
            && multiset(listed) == multiset(store) + multiset{b}
            && b in listed
            && forall x :: x in listed && x.id == freshId ==> x == b
  {
    var b := Normalise(body, freshId, now).value;
    var after := store + [b];
    var listed := List(after, true).response.body.data.bookings;
    assert multiset(after) == multiset(store) + multiset{b};
    assert b in multiset(listed);
    forall x | x in listed && x.id == freshId ensures x == b {
      assert x in multiset(after);
      var k :| 0 <= k < |after| && after[k] == x;
      if k < |store| {
        assert HasId(store, freshId);
      }
    }
  }

  /** Deleting an identity that is not stored answers 404 and the next listing is what it was. */
  lemma DeleteMissingLeavesListing(store: Store, id: Id)
    requires !HasId(store, id)
    ensures Delete(store, id, true).response.code == 404
    ensures List(Delete(store, id, true).store, true) == List(store, true)
  {
  }
}
