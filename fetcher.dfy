/**
  The fetcher: pages 1, 2, 3, ... of the /users API are requested in turn and
  their users appended, until a page comes back empty. The network and the JSON
  binding are replaced by a finite oracle `source`, where `source[p - 1]` is
  what the request for page `p` yields.
*/
module Fetcher {
  import opened Wrappers
  import opened Users

  const HttpOk := 200

  /** What one page request yields, once the response body has gone through the binding. */
  datatype Reply =
    | Delivered(status: int, body: Option<seq<User>>)  // `None`: the body is not a list of users
    | SendFailed                                       // the request itself threw

  /** Why the whole fetch fails; every one aborts it without a user list. */
  datatype FetchError =
    | HttpStatus(code: int)  // a response status other than 200
    | Transport              // an exception from sending the request
    | Parse                  // an exception from binding a 200 body

  /** A reply after which the loop requests the next page: a 200 with a non-empty list. */
  predicate Continues(r: Reply)
    ensures Continues(r) ==> !IsLastPage(r)
  {
    r.Delivered? && r.status == HttpOk && r.body.Some? && r.body.value != []
  }

  /** The reply that ends the loop normally: a 200 with an empty list. */
  predicate IsLastPage(r: Reply)
    ensures IsLastPage(r) ==> r.Delivered? && r.status == HttpOk && r.body.Some?
  {
    r == Delivered(HttpOk, Some([]))
  }

  /** The users a reply contributes to the accumulated list. */
  function PageUsers(r: Reply): seq<User> {
    if Continues(r) then r.body.value else []
  }

  /** The error that a reply which neither continues nor ends the loop raises. */
  function ErrorOf(r: Reply): (e: FetchError)
    requires !Continues(r) && !IsLastPage(r)
    ensures e.HttpStatus? <==> r.Delivered? && r.status != HttpOk
    ensures e.HttpStatus? ==> e.code == r.status
    ensures e == Transport <==> r.SendFailed?
  {
    match r
    case SendFailed => Transport
    case Delivered(status, body) => if status != HttpOk then HttpStatus(status) else Parse
  }

  /** The oracle contains a reply that stops the loop, so the loop terminates. */
  predicate Terminates(source: seq<Reply>) {
    exists k :: 0 <= k < |source| && !Continues(source[k])
  }

  /** The index of the first reply that stops the loop; page `FirstStop + 1` is the last requested. */
  function FirstStop(source: seq<Reply>): (k: nat)
    requires Terminates(source)
    ensures k < |source| && !Continues(source[k])
    ensures forall j :: 0 <= j < k ==> Continues(source[j])
  {
    if !Continues(source[0]) then 0
    else
      assert Terminates(source[1..]) by {
        var k :| 0 <= k < |source| && !Continues(source[k]);
        assert k > 0 && !Continues(source[1..][k - 1]);
      }
      1 + FirstStop(source[1..])
  }

  /** The users of `replies`, reply after reply, each in its own order. */
  function Concat(replies: seq<Reply>): (r: seq<User>)
    ensures |r| == TotalSize(replies)
  {
    if replies == [] then []
    else Concat(replies[..|replies| - 1]) + PageUsers(replies[|replies| - 1])
  }

  /**
    `fetchAllUsers`. On success the users are those of every page before the
    first empty one, in page order; a failing page aborts with its error. The
    second result is the final page counter: the number of requests made.
  */
  method FetchAllUsers(source: seq<Reply>) returns (result: Result<seq<User>, FetchError>, page: nat)
    requires Terminates(source)
    ensures page == FirstStop(source) + 1
    ensures result.Success? <==> IsLastPage(source[page - 1])
    ensures result.Success? ==> result.value == Concat(source[..page - 1])
    ensures result.Failure? ==> result.error == ErrorOf(source[page - 1])
  {
    var users: seq<User> := [];
    page := 1;
    while true
      invariant 1 <= page <= FirstStop(source) + 1
      invariant users == Concat(source[..page - 1])
      decreases FirstStop(source) + 1 - page
    {
      var reply := source[page - 1];
      if reply.SendFailed? {
        return Failure(Transport), page;
      }
      if reply.status != HttpOk {
        return Failure(HttpStatus(reply.status)), page;
      }
      if reply.body.None? {
        return Failure(Parse), page;
      }
      var pageUsers := reply.body.value;
      if pageUsers == [] {
        break;
      }
      assert source[..page] == source[..page - 1] + [reply];
      users := users + pageUsers;
      page := page + 1;
    }
    result := Success(users);
  }

  /** Page by page: the users of two runs of replies are those of the first, then of the second. */
  lemma {:induction false} ConcatAppend(a: seq<Reply>, b: seq<Reply>)
    ensures Concat(a + b) == Concat(a) + Concat(b)
    decreases |b|
  {
    if b != [] {
      var b' := b[..|b| - 1];
      assert (a + b)[..|a + b| - 1] == a + b';
      ConcatAppend(a, b');
    } else {
      assert a + b == a;
    }
  }

  /** The sum of the page sizes of `replies`. */
  function TotalSize(replies: seq<Reply>): nat {
    if replies == [] then 0 else TotalSize(replies[..|replies| - 1]) + |PageUsers(replies[|replies| - 1])|
  }

  /** Nothing is lost: every user of every page occurs in the result at least as often as in its page. */
  lemma {:induction false} ConcatHoldsPages(replies: seq<Reply>, i: nat)
    requires i < |replies|
    ensures multiset(PageUsers(replies[i])) <= multiset(Concat(replies))
  {
    var init, last := replies[..|replies| - 1], replies[|replies| - 1];
    assert multiset(Concat(replies)) == multiset(Concat(init)) + multiset(PageUsers(last));
    if i < |init| {
      assert init[i] == replies[i];
      ConcatHoldsPages(init, i);
    }
  }

  /**
    The users of page `p` (for `p` before the stop) sit in the result right after
    those of pages 1 to `p - 1`, in their order within the page.
  */
  lemma PageInPlace(source: seq<Reply>, p: nat, i: nat)
    requires Terminates(source)
    requires 1 <= p <= FirstStop(source)
    requires i < |PageUsers(source[p - 1])|
    ensures var before := |Concat(source[..p - 1])|;
            before + i < |Concat(source[..FirstStop(source)])| &&
            Concat(source[..FirstStop(source)])[before + i] == source[p - 1].body.value[i]
  {
    var n := FirstStop(source);
    var a, r, b := source[..p - 1], source[p - 1], source[p..n];
    assert (a + [r])[..|a + [r]| - 1] == a;
    assert Concat(a + [r]) == Concat(a) + PageUsers(r);
    assert source[..n] == (a + [r]) + b;
    ConcatAppend(a + [r], b);
  }
}
