/**
 How the dashboard's local list relates to the server's store. After a fetch
 the dashboard shows the store's newest-first listing; its optimistic updates
 after a delete or a status change then produce exactly the listing a fresh
 fetch would return, whatever the server answered.
 */
module Consistency {
  import opened Results
  import opened Bookings
  import opened Listing
  import opened BookingRoutes
  import opened AdminDashboard

  /** The newest-first listing the list handler returns for `store`. */
  function Listed(store: Store): (r: seq<Booking>)
    ensures List(store, true).response.body.data == Many(r)
  {
    SortNewestFirst(store)
  }

  /** A successful fetch replaces the local list by the store's listing; a failed one keeps it. */
  lemma FetchShowsListing(bs: seq<Booking>, store: Store, online: bool)
    ensures HandleFetch(bs, Reply(List(store, online).response)) == if online then Listed(store) else bs
  {
  }

  // Removing an identity commutes with newest-first insertion and sorting.

  lemma WithoutIdCons(x: Booking, t: seq<Booking>, id: Id)
    ensures WithoutId([x] + t, id) == (if x.id == id then [] else [x]) + WithoutId(t, id)
  {
    assert ([x] + t)[1..] == t;
  }

  /** Every booking in a newest-first list is no newer than its head. */
  lemma HeadIsNewest(t: seq<Booking>, x: Booking)
    requires NewestFirst(t) && x in multiset(t)
    ensures t[0].createdAt >= x.createdAt
  {
    var k :| 0 <= k < |t| && t[k] == x;
  }

  lemma {:induction false} WithoutIdInsert(b: Booking, t: seq<Booking>, id: Id)
    requires NewestFirst(t)
    ensures WithoutId(Insert(b, t), id) ==
              if b.id == id then WithoutId(t, id) else Insert(b, WithoutId(t, id))
    decreases |t|
  {
    if t == [] || b.createdAt >= t[0].createdAt {
      WithoutIdInsertFront(b, t, id);
    } else {
      TailNewestFirst(t);
      WithoutIdInsert(b, t[1..], id);
      WithoutIdInsertBehind(b, t, id);
    }
  }

  /** The case where `b` goes in front: it is at least as new as everything the filter keeps. */
  lemma WithoutIdInsertFront(b: Booking, t: seq<Booking>, id: Id)
    requires NewestFirst(t)
    requires t == [] || b.createdAt >= t[0].createdAt
    ensures WithoutId(Insert(b, t), id) ==
              if b.id == id then WithoutId(t, id) else Insert(b, WithoutId(t, id))
  {
    WithoutIdCons(b, t, id);
    var w := WithoutId(t, id);
    if b.id != id && w != [] {
      WithoutIdCounts(t, id);
      assert w[0] in multiset(w);
      HeadIsNewest(t, w[0]);
    }
  }

  /** The case where `b` goes behind the head, given the claim for the tail. */
  lemma WithoutIdInsertBehind(b: Booking, t: seq<Booking>, id: Id)
    requires t != [] && b.createdAt < t[0].createdAt
    requires WithoutId(Insert(b, t[1..]), id) ==
               if b.id == id then WithoutId(t[1..], id) else Insert(b, WithoutId(t[1..], id))
    ensures WithoutId(Insert(b, t), id) ==
              if b.id == id then WithoutId(t, id) else Insert(b, WithoutId(t, id))
  {
    var h, t1 := t[0], t[1..];
    var u := Insert(b, t1);
    var w := WithoutId(t1, id);
    var keep: seq<Booking> := if h.id == id then [] else [h];
    assert t == [h] + t1;
    assert Insert(b, t) == [h] + u;
    WithoutIdCons(h, u, id);
    WithoutIdCons(h, t1, id);
    assert WithoutId(Insert(b, t), id) == keep + WithoutId(u, id);
    assert WithoutId(t, id) == keep + w;
    if b.id != id && h.id != id {
      InsertBehindHead(b, h, w);
    }
  }

  /** A booking older than the head is inserted behind it. */
  lemma InsertBehindHead(b: Booking, h: Booking, w: seq<Booking>)
    requires b.createdAt < h.createdAt
    ensures Insert(b, [h] + w) == [h] + Insert(b, w)
  {
    assert ([h] + w)[0] == h && ([h] + w)[1..] == w;
  }

  lemma {:induction false} WithoutIdSort(s: seq<Booking>, id: Id)
    ensures WithoutId(SortNewestFirst(s), id) == SortNewestFirst(WithoutId(s, id))
    decreases |s|
  {
    if s != [] {
      WithoutIdSort(s[1..], id);
      WithoutIdInsert(s[0], SortNewestFirst(s[1..]), id);
      var w := WithoutId(s[1..], id);
      if s[0].id != id {
        assert ([s[0]] + w)[1..] == w;
      }
    }
  }

  // Rewriting a status commutes with newest-first insertion and sorting.

  lemma {:induction false} WithStatusInsert(b: Booking, t: seq<Booking>, id: Id, status: string)
    ensures WithStatus(Insert(b, t), id, status) == Insert(Touch(b, id, status), WithStatus(t, id, status))
    decreases |t|
  {
    if t == [] {
      assert Insert(b, t) == [b];
      assert [b][1..] == [];
    } else if b.createdAt >= t[0].createdAt {
      assert ([b] + t)[1..] == t;
    } else {
      WithStatusInsert(b, t[1..], id, status);
      var r := [t[0]] + Insert(b, t[1..]);
      assert r[1..] == Insert(b, t[1..]);
      var u := WithStatus(t, id, status);
      assert u[1..] == WithStatus(t[1..], id, status);
      assert u == [u[0]] + u[1..];
    }
  }

  lemma {:induction false} WithStatusSort(s: seq<Booking>, id: Id, status: string)
    ensures WithStatus(SortNewestFirst(s), id, status) == SortNewestFirst(WithStatus(s, id, status))
    decreases |s|
  {
    if s != [] {
      WithStatusSort(s[1..], id, status);
      WithStatusInsert(s[0], SortNewestFirst(s[1..]), id, status);
      var u := WithStatus(s, id, status);
      assert u[1..] == WithStatus(s[1..], id, status);
    }
  }

  // The server's store updates, restated as the dashboard's list operations.

  lemma {:induction false} WithoutAbsentId(s: seq<Booking>, id: Id)
    requires forall j :: 0 <= j < |s| ==> s[j].id != id
    ensures WithoutId(s, id) == s
    decreases |s|
  {
    if s != [] {
      WithoutAbsentId(s[1..], id);
      assert s == [s[0]] + s[1..];
    }
  }

  lemma TailUniqueIds(store: Store)
    requires store != [] && UniqueIds(store)
    ensures UniqueIds(store[1..])
    ensures forall j :: 0 <= j < |store| - 1 ==> store[1..][j].id != store[0].id
  {
    var tail := store[1..];
    forall j, k | 0 <= j < k < |tail| ensures tail[j].id != tail[k].id {
      assert tail[j] == store[j + 1] && tail[k] == store[k + 1];
    }
    forall j | 0 <= j < |tail| ensures tail[j].id != store[0].id {
      assert tail[j] == store[j + 1];
    }
  }

  lemma {:induction false} DeleteIsWithoutId(store: Store, id: Id, i: nat)
    requires UniqueIds(store)
    requires i < |store| && store[i].id == id
    ensures WithoutId(store, id) == store[..i] + store[i + 1..]
    decreases |store|
  {
    var tail := store[1..];
    TailUniqueIds(store);
    assert store == [store[0]] + tail;
    WithoutIdCons(store[0], tail, id);
    if i == 0 {
      WithoutAbsentId(tail, id);
    } else {
      assert tail[i - 1] == store[i];
      DeleteIsWithoutId(tail, id, i - 1);
      assert store[0].id != id;
      assert store[..i] + store[i + 1..] == [store[0]] + (tail[..i - 1] + tail[i..]);
    }
  }

  lemma SetStatusIsWithStatus(store: Store, id: Id, status: string, online: bool)
    requires ValidStore(store)
    requires SetStatus(store, id, status, online).response.code == 200
    ensures WithStatus(store, id, status) == SetStatus(store, id, status, online).store
  {
    SetStatusTouchesOnlyThatId(store, id, status, online);
  }


  /**
   Deleting from a dashboard that shows the store's listing leaves it showing
   the listing of the store the server ends with, whether the server removed
   the booking or answered 404 or 500.
   */
  lemma DeleteKeepsDashboardInSync(store: Store, id: Id, online: bool)
    requires ValidStore(store)
    ensures var o := Delete(store, id, online);
            HandleDelete(Listed(store), id, true, Reply(o.response)) == Listed(o.store)
  {
    var o := Delete(store, id, online);
    if o.response.code == 200 {
      var i := Find(store, id).value;
      DeleteIsWithoutId(store, id, i);
      WithoutIdSort(store, id);
    }
  }

  /**
   A status change on a dashboard that shows the store's listing leaves it
   showing the listing of the store the server ends with, whatever the
   server answered.
   */
  lemma StatusChangeKeepsDashboardInSync(store: Store, id: Id, status: string, online: bool)
    requires ValidStore(store)
    ensures var o := SetStatus(store, id, status, online);
            HandleStatusChange(Listed(store), id, status, Reply(o.response)) == Listed(o.store)
  {
    var o := SetStatus(store, id, status, online);
    if o.response.code == 200 {
      SetStatusIsWithStatus(store, id, status, online);
      WithStatusSort(store, id, status);
    }
  }

  /**
   The only status change the dashboard can request is pending to completed:
   it is offered only on pending bookings, and the server accepts it.
   */
  lemma UiTransitionIsPendingToCompleted(store: Store, b: Booking, status: string)
    requires ValidStore(store) && b in store
    requires status in OfferedStatusChanges(b)
    ensures b.status == Pending && status == Completed
    ensures SetStatus(store, b.id, status, true).response.code == 200
    ensures SetStatus(store, b.id, status, true).response.body.data == One(b.(status := Completed))
  {
    var k :| 0 <= k < |store| && store[k] == b;
    var i := Find(store, b.id).value;
    assert UniqueIds(store);
    assert i == k;
  }
}
