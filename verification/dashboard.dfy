/**
 The admin dashboard's list logic (frontend/src/pages/AdminDashboard.js): the
 status filter, the per-status counts, and the local list updates that follow
 a fetch, a delete and a status change. The dashboard holds the bookings it
 last fetched; an HTTP exchange is given as the reply it produced.
 */
module AdminDashboard {
  import opened Bookings
  import opened Listing
  import opened BookingRoutes

  /** The filter value that shows every booking. */
  const AllFilter := "all"

  /**
   What the HTTP client hands back: no reply at all (network failure), or the
   server's response. The client rejects, rather than returns, any response
   whose status code is not 2xx.
   */
  datatype HttpReply = NoReply | Reply(response: Response)

  predicate IsRejected(reply: HttpReply) {
    reply.NoReply? || !(200 <= reply.response.code < 300)
  }

  /** The statuses of `bs`, in order. */
  function StatusesOf(bs: seq<Booking>): (r: seq<string>)
    ensures |r| == |bs|
    ensures forall i :: 0 <= i < |bs| ==> r[i] == bs[i].status
  {
    if bs == [] then [] else [bs[0].status] + StatusesOf(bs[1..])
  }

  /** The bookings of `bs` whose status is `s`, in their order. */
  function OfStatus(bs: seq<Booking>, s: string): (r: seq<Booking>)
    ensures |r| <= |bs|
    ensures forall i :: 0 <= i < |r| ==> r[i].status == s
  {
    if bs == [] then []
    else if bs[0].status == s then [bs[0]] + OfStatus(bs[1..], s)
    else OfStatus(bs[1..], s)
  }

  /** Selecting by status keeps the selected bookings in their order. */
  lemma {:induction false} OfStatusIsSubsequence(bs: seq<Booking>, s: string)
    ensures IsSubsequence(OfStatus(bs, s), bs)
    decreases |bs|
  {
    if bs != [] {
      var rest := OfStatus(bs[1..], s);
      OfStatusIsSubsequence(bs[1..], s);
      assert bs == [bs[0]] + bs[1..];
      SubsequenceOfCons(rest, bs[0], bs[1..]);
      if bs[0].status == s {
        assert ([bs[0]] + rest)[1..] == rest;
      }
    }
  }

  /** Selecting by status keeps every booking with that status, as often as it occurs, and nothing else. */
  lemma {:induction false} OfStatusCounts(bs: seq<Booking>, s: string)
    ensures forall b :: multiset(OfStatus(bs, s))[b] == if b.status == s then multiset(bs)[b] else 0
    decreases |bs|
  {
    if bs != [] {
      OfStatusCounts(bs[1..], s);
      assert bs == [bs[0]] + bs[1..];
    }
  }

  /** As many bookings are selected as the status occurs in the list. */
  lemma {:induction false} OfStatusLength(bs: seq<Booking>, s: string)
    ensures |OfStatus(bs, s)| == multiset(StatusesOf(bs))[s]
    decreases |bs|
  {
    if bs != [] {
      OfStatusLength(bs[1..], s);
      assert StatusesOf(bs) == [bs[0].status] + StatusesOf(bs[1..]);
    }
  }

  /** `filteredBookings`: everything under the "all" filter, otherwise the bookings with that status. */
  function FilterBookings(bs: seq<Booking>, filter: string): (r: seq<Booking>)
    ensures filter == AllFilter ==> r == bs
    ensures filter != AllFilter ==> IsSubsequence(r, bs)
    ensures filter != AllFilter ==>
              forall b :: multiset(r)[b] == if b.status == filter then multiset(bs)[b] else 0
  {
    OfStatusIsSubsequence(bs, filter);
    OfStatusCounts(bs, filter);
    if filter == AllFilter then bs else OfStatus(bs, filter)
  }

  /** A filtered view of a newest-first list is still newest first. */
  lemma FilteredStaysNewestFirst(bs: seq<Booking>, filter: string)
    requires NewestFirst(bs)
    ensures NewestFirst(FilterBookings(bs, filter))
  {
    if filter != AllFilter {
      SubsequenceKeepsNewestFirst(FilterBookings(bs, filter), bs);
    }
  }

  /** The four counters above the list. */
  datatype Stats = Stats(total: nat, pending: nat, completed: nat, cancelled: nat)

  /** `stats`, always counted over the whole list, never over the filtered one. */
  function ComputeStats(bs: seq<Booking>): (st: Stats)
    ensures st.total == |bs|
    ensures st.pending == multiset(StatusesOf(bs))[Pending]
    ensures st.completed == multiset(StatusesOf(bs))[Completed]
    ensures st.cancelled == multiset(StatusesOf(bs))[Cancelled]
  {
    OfStatusLength(bs, Pending);
    OfStatusLength(bs, Completed);
    OfStatusLength(bs, Cancelled);
    Stats(|bs|, |OfStatus(bs, Pending)|, |OfStatus(bs, Completed)|, |OfStatus(bs, Cancelled)|)
  }

  /** When every status is one the schema allows, the three counters add up to the total. */
  lemma {:induction false} CountsAddUp(bs: seq<Booking>)
    requires forall i :: 0 <= i < |bs| ==> IsStatus(bs[i].status)
    ensures var st := ComputeStats(bs);
            st.pending + st.completed + st.cancelled == st.total
  {
    StatusCountsAddUp(bs);
  }

  lemma {:induction false} StatusCountsAddUp(bs: seq<Booking>)
    requires forall i :: 0 <= i < |bs| ==> IsStatus(bs[i].status)
    ensures var m := multiset(StatusesOf(bs));
            m[Pending] + m[Completed] + m[Cancelled] == |bs|
  {
    if bs != [] {
      assert forall i :: 0 <= i < |bs[1..]| ==> bs[1..][i] == bs[i + 1];
      StatusCountsAddUp(bs[1..]);
      assert multiset(StatusesOf(bs)) == multiset{bs[0].status} + multiset(StatusesOf(bs[1..]));
      assert IsStatus(bs[0].status);
    }
  }

  /** The list with every booking carrying identity `id` left out. */
  function WithoutId(bs: seq<Booking>, id: Id): (r: seq<Booking>)
    ensures |r| <= |bs|
    ensures forall i :: 0 <= i < |r| ==> r[i].id != id
  {
    if bs == [] then []
    else if bs[0].id == id then WithoutId(bs[1..], id)
    else [bs[0]] + WithoutId(bs[1..], id)
  }

  /** Filtering by identity keeps the other bookings in their order. */
  lemma {:induction false} WithoutIdIsSubsequence(bs: seq<Booking>, id: Id)
    ensures IsSubsequence(WithoutId(bs, id), bs)
    decreases |bs|
  {
    if bs != [] {
      var rest := WithoutId(bs[1..], id);
      WithoutIdIsSubsequence(bs[1..], id);
      assert bs == [bs[0]] + bs[1..];
      SubsequenceOfCons(rest, bs[0], bs[1..]);
      if bs[0].id != id {
        assert ([bs[0]] + rest)[1..] == rest;
      }
    }
  }

  /** Filtering by identity drops every copy of that identity and keeps every other booking. */
  lemma {:induction false} WithoutIdCounts(bs: seq<Booking>, id: Id)
    ensures forall b :: multiset(WithoutId(bs, id))[b] == if b.id == id then 0 else multiset(bs)[b]
    decreases |bs|
  {
    if bs != [] {
      WithoutIdCounts(bs[1..], id);
      assert bs == [bs[0]] + bs[1..];
    }
  }

  /** The booking with a new status if it carries identity `id`, otherwise unchanged. */
  function Touch(b: Booking, id: Id, status: string): (r: Booking)
    ensures SameButStatus(b, r)
    ensures r.status == if b.id == id then status else b.status
  {
    if b.id == id then b.(status := status) else b
  }

  /** The list with the bookings carrying identity `id` given the new status, in place. */
  function WithStatus(bs: seq<Booking>, id: Id, status: string): (r: seq<Booking>)
    ensures |r| == |bs|
    ensures forall i :: 0 <= i < |bs| ==> SameButStatus(bs[i], r[i])
    ensures forall i :: 0 <= i < |bs| ==> r[i].status == if bs[i].id == id then status else bs[i].status
  {
    if bs == [] then []
    else
      var rest := WithStatus(bs[1..], id, status);
      assert forall i :: 0 < i < |bs| ==> ([Touch(bs[0], id, status)] + rest)[i] == rest[i - 1];
      [Touch(bs[0], id, status)] + rest
  }

  /** After a fetch: the server's list when it answered with success, otherwise the list as it was. */
  function HandleFetch(bs: seq<Booking>, reply: HttpReply): (r: seq<Booking>)
    ensures IsRejected(reply) || !reply.response.body.success ==> r == bs
    ensures !IsRejected(reply) && reply.response.body.success && reply.response.body.data.Many? ==>
              r == reply.response.body.data.bookings
  {
    if !IsRejected(reply) && reply.response.body.success && reply.response.body.data.Many? then
      reply.response.body.data.bookings
    else
      bs
  }

  /**
   `handleDelete`: once confirmed and answered without rejection, every booking
   with that identity leaves the list and the rest keep their order.
   */
  function HandleDelete(bs: seq<Booking>, id: Id, confirmed: bool, reply: HttpReply): (r: seq<Booking>)
    ensures !confirmed || IsRejected(reply) ==> r == bs
    ensures confirmed && !IsRejected(reply) ==>
              && IsSubsequence(r, bs)
              && forall b :: multiset(r)[b] == if b.id == id then 0 else multiset(bs)[b]
  {
    WithoutIdIsSubsequence(bs, id);
    WithoutIdCounts(bs, id);
    if confirmed && !IsRejected(reply) then WithoutId(bs, id) else bs
  }

  /**
   `handleStatusChange`: on a reply that is not rejected and says `success`,
   the bookings with that identity take the new status and nothing else moves.
   */
  function HandleStatusChange(bs: seq<Booking>, id: Id, status: string, reply: HttpReply): (r: seq<Booking>)
    ensures IsRejected(reply) || !reply.response.body.success ==> r == bs
    ensures !IsRejected(reply) && reply.response.body.success ==>
              && |r| == |bs|
              && (forall i :: 0 <= i < |bs| ==> SameButStatus(bs[i], r[i]))
              && (forall i :: 0 <= i < |bs| ==> r[i].status == if bs[i].id == id then status else bs[i].status)
  {
    if !IsRejected(reply) && reply.response.body.success then WithStatus(bs, id, status) else bs
  }

  /**
   The status changes a booking's row offers: "Complete" on a pending booking,
   nothing otherwise. Deletion is offered on every row.
   */
  function OfferedStatusChanges(b: Booking): (r: seq<string>)
    ensures forall s :: s in r ==> b.status == Pending && s == Completed
    ensures b.status == Pending ==> Completed in r
  {
    if b.status == Pending then [Completed] else []
  }
}
