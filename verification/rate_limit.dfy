/** The per-user rate limiter. A request is checked at one moment and, if let through, recorded at a
    moment not before it; requests are handled one at a time. */
module RateLimit {
  import opened Options

  // A request without a sender is never limited.
  datatype Request = Request(user: Option<int>, checked: int, stored: int)

  predicate Passes(last: map<int, int>, r: Request, limit: int) {
    r.user.Some? && r.user.value in last ==> !(r.checked - last[r.user.value] < limit)
  }

  function Step(last: map<int, int>, r: Request, limit: int): map<int, int> {
    if r.user.Some? && Passes(last, r, limit) then last[r.user.value := r.stored] else last
  }

  function Run(requests: seq<Request>, limit: int): map<int, int> {
    if requests == [] then map[]
    else Step(Run(requests[..|requests| - 1], limit), requests[|requests| - 1], limit)
  }

  predicate Accepted(requests: seq<Request>, limit: int, i: int)
    requires 0 <= i < |requests|
  {
    Passes(Run(requests[..i], limit), requests[i], limit)
  }

  /** Time does not run backwards between or within requests. */
  predicate Ordered(requests: seq<Request>) {
    && (forall r <- requests :: r.checked <= r.stored)
    && (forall i, j | 0 <= i < j < |requests| :: requests[i].stored <= requests[j].checked)
  }

  predicate From(requests: seq<Request>, i: int, user: int)
    requires 0 <= i < |requests|
  {
    requests[i].user == Some(user)
  }

  // ----- what the stored time means -----

  lemma OrderedFront(requests: seq<Request>)
    requires requests != [] && Ordered(requests)
    ensures Ordered(requests[..|requests| - 1])
  {
    var front := requests[..|requests| - 1];
    assert forall i | 0 <= i < |front| :: front[i] == requests[i] && front[i] in requests;
  }

  lemma AcceptedInFront(requests: seq<Request>, limit: int, n: int, i: int)
    requires 0 <= i < n <= |requests|
    ensures Accepted(requests[..n], limit, i) == Accepted(requests, limit, i)
  {
    assert requests[..n][..i] == requests[..i];
  }

  // The entry of a user is the time of that user's last accepted request.
  lemma {:induction false} EntryIsLastAccepted(requests: seq<Request>, limit: int, user: int) returns (i: int)
    requires user in Run(requests, limit)
    ensures 0 <= i < |requests| && From(requests, i, user) && Accepted(requests, limit, i)
    ensures requests[i].stored == Run(requests, limit)[user]
    ensures forall j | i < j < |requests| && From(requests, j, user) :: !Accepted(requests, limit, j)
  {
    var n := |requests| - 1;
    if requests[n].user == Some(user) && Accepted(requests, limit, n) {
      i := n;
    } else {
      var k := EntryIsLastAccepted(requests[..n], limit, user);
      AcceptedInFront(requests, limit, n, k);
      forall j | k < j < |requests| && From(requests, j, user) ensures !Accepted(requests, limit, j) {
        if j < n {
          AcceptedInFront(requests, limit, n, j);
          assert From(requests[..n], j, user);
        }
      }
      i := k;
    }
  }

  lemma {:induction false} AcceptedLeavesEntry(requests: seq<Request>, limit: int, user: int, i: int)
    requires Ordered(requests) && 0 <= i < |requests| && From(requests, i, user) && Accepted(requests, limit, i)
    ensures user in Run(requests, limit) && requests[i].stored <= Run(requests, limit)[user]
  {
    var n := |requests| - 1;
    if i < n {
      OrderedFront(requests);
      AcceptedInFront(requests, limit, n, i);
      AcceptedLeavesEntry(requests[..n], limit, user, i);
      assert requests[n] in requests && requests[i].stored <= requests[n].checked <= requests[n].stored;
    }
  }

  lemma OrderedUpTo(requests: seq<Request>, n: nat)
    requires Ordered(requests) && n <= |requests|
    ensures Ordered(requests[..n])
  {
    var front := requests[..n];
    assert forall i | 0 <= i < |front| :: front[i] == requests[i] && front[i] in requests;
  }

  /** A request is refused exactly when an earlier request of the same user was let through less
      than the limit before. */
  lemma RefusedExactlyWhen(requests: seq<Request>, limit: int, i: int, user: int)
    requires Ordered(requests) && 0 <= i < |requests| && From(requests, i, user)
    ensures !Accepted(requests, limit, i) <==>
      exists j | 0 <= j < i ::
        From(requests, j, user) && Accepted(requests, limit, j) && requests[i].checked - requests[j].stored < limit
  {
    var front := requests[..i];
    OrderedUpTo(requests, i);
    if user in Run(front, limit) {
      var k := EntryIsLastAccepted(front, limit, user);
      AcceptedInFront(requests, limit, i, k);
      assert From(requests, k, user);
    }
    forall j | 0 <= j < i && From(requests, j, user) && Accepted(requests, limit, j)
      ensures user in Run(front, limit) && requests[j].stored <= Run(front, limit)[user]
    {
      AcceptedInFront(requests, limit, i, j);
      AcceptedLeavesEntry(front, limit, user, j);
    }
  }

  /** Two accepted requests of one user are at least the limit apart. */
  lemma AcceptedApart(requests: seq<Request>, limit: int, i: int, j: int, user: int)
    requires Ordered(requests) && 0 <= i < j < |requests| && From(requests, i, user) && From(requests, j, user)
    requires Accepted(requests, limit, i) && Accepted(requests, limit, j)
    ensures requests[j].checked - requests[i].stored >= limit
  {
    RefusedExactlyWhen(requests, limit, j, user);
  }

  /** Requests without a sender always pass and are not remembered. */
  lemma SenderlessPass(last: map<int, int>, r: Request, limit: int)
    requires r.user.None?
    ensures Passes(last, r, limit) && Step(last, r, limit) == last
  {
  }

  // ----- the window bound -----

  predicate Counted(requests: seq<Request>, limit: int, i: int, user: int, from: int, width: int)
    requires 0 <= i < |requests|
  {
    From(requests, i, user) && Accepted(requests, limit, i) && from <= requests[i].stored <= from + width
  }

  /** How many of the first n requests are this user's, accepted and recorded in the window. */
  function Count(requests: seq<Request>, limit: int, n: nat, user: int, from: int, width: int): nat
    requires n <= |requests|
  {
    if n == 0 then 0
    else
      Count(requests, limit, n - 1, user, from, width) +
      if Counted(requests, limit, n - 1, user, from, width) then 1 else 0
  }

  // n limits in a row.
  function Steps(limit: int, n: nat): int {
    if n == 0 then 0 else Steps(limit, n - 1) + limit
  }

  lemma {:induction false} StepsAreProduct(limit: int, n: nat)
    ensures Steps(limit, n) == n * limit
  {
    if n > 0 {
      StepsAreProduct(limit, n - 1);
      assert n * limit == (n - 1) * limit + limit;
    }
  }

  lemma {:induction false} MoreSteps(limit: int, n: nat, m: nat)
    requires n <= m && limit > 0
    ensures Steps(limit, n) <= Steps(limit, m)
  {
    if n < m {
      MoreSteps(limit, n, m - 1);
    }
  }

  // The latest counted request is late enough to leave room for the ones before it.
  lemma {:induction false} CountSpreads(requests: seq<Request>, limit: int, n: nat, user: int, from: int, width: int)
    returns (last: int)
    requires Ordered(requests) && limit > 0 && n <= |requests|
    requires Count(requests, limit, n, user, from, width) > 0
    ensures 0 <= last < n && Counted(requests, limit, last, user, from, width)
    ensures requests[last].stored >= from + Steps(limit, Count(requests, limit, n, user, from, width) - 1)
  {
    if Counted(requests, limit, n - 1, user, from, width) {
      last := n - 1;
      var before := Count(requests, limit, n - 1, user, from, width);
      if before > 0 {
        var previous := CountSpreads(requests, limit, n - 1, user, from, width);
        AcceptedApart(requests, limit, previous, last, user);
        assert requests[last] in requests;
      }
    } else {
      last := CountSpreads(requests, limit, n - 1, user, from, width);
    }
  }

  lemma TooManySteps(count: nat, limit: int, width: int)
    requires limit > 0 && width >= 0 && count > width / limit
    ensures Steps(limit, count) > width
  {
    StepsAreProduct(limit, width / limit + 1);
    assert width < (width / limit + 1) * limit;
    MoreSteps(limit, width / limit + 1, count);
  }

  /** A closed window of any width holds at most width / limit + 1 accepted requests of a user. */
  lemma WindowBound(requests: seq<Request>, limit: int, user: int, from: int, width: int)
    requires Ordered(requests) && limit > 0 && width >= 0
    ensures Count(requests, limit, |requests|, user, from, width) <= width / limit + 1
  {
    var count := Count(requests, limit, |requests|, user, from, width);
    if count > 0 {
      var last := CountSpreads(requests, limit, |requests|, user, from, width);
      if count - 1 > width / limit {
        TooManySteps(count - 1, limit, width);
      }
    }
  }

  // ----- the bound is reached -----

  // One request every limit, each handled in no time.
  function Steady(user: int, from: int, limit: int, n: nat): seq<Request> {
    seq(n, i requires 0 <= i => Request(Some(user), from + Steps(limit, i), from + Steps(limit, i)))
  }

  lemma {:induction false} SteadyEntry(user: int, from: int, limit: int, n: nat)
    requires n > 0 && limit > 0
    ensures Accepted(Steady(user, from, limit, n), limit, n - 1)
    ensures Run(Steady(user, from, limit, n), limit) == map[user := from + Steps(limit, n - 1)]
  {
    var all, front := Steady(user, from, limit, n), Steady(user, from, limit, n - 1);
    assert all[..n - 1] == front;
    if n > 1 {
      SteadyEntry(user, from, limit, n - 1);
    }
  }

  lemma {:induction false} SteadyCount(user: int, from: int, limit: int, width: int, n: nat, m: nat)
    requires limit > 0 && m <= n && (n > 0 ==> Steps(limit, n - 1) <= width)
    ensures Count(Steady(user, from, limit, n), limit, m, user, from, width) == m
  {
    if m > 0 {
      SteadyCount(user, from, limit, width, n, m - 1);
      SteadyEntry(user, from, limit, m);
      var all := Steady(user, from, limit, n);
      assert all[..m] == Steady(user, from, limit, m);
      AcceptedInFront(all, limit, m, m - 1);
      MoreSteps(limit, 0, m - 1);
      MoreSteps(limit, m - 1, n - 1);
    }
  }

  lemma SteadyOrdered(user: int, from: int, limit: int, n: nat)
    requires limit > 0
    ensures Ordered(Steady(user, from, limit, n))
  {
    forall i, j | 0 <= i < j < n ensures Steps(limit, i) <= Steps(limit, j) {
      MoreSteps(limit, i, j);
    }
  }

  /** No smaller bound would do: a steady stream of requests meets it in every window width. */
  lemma WindowBoundIsReached(limit: int, user: int, from: int, width: int)
    requires limit > 0 && width >= 0
    ensures var all := Steady(user, from, limit, width / limit + 1);
      Ordered(all) && Count(all, limit, |all|, user, from, width) == width / limit + 1
  {
    var n := width / limit + 1;
    SteadyOrdered(user, from, limit, n);
    StepsAreProduct(limit, n - 1);
    SteadyCount(user, from, limit, width, n, n);
  }

  // ----- users do not disturb each other -----

  function Only(requests: seq<Request>, user: int): seq<Request> {
    if requests == [] then []
    else
      var last := requests[|requests| - 1];
      Only(requests[..|requests| - 1], user) + if last.user == Some(user) then [last] else []
  }

  /** Whether a request passes depends on its own user's requests alone. */
  lemma {:induction false} OthersDoNotMatter(requests: seq<Request>, limit: int, user: int, r: Request)
    requires r.user == Some(user)
    ensures Passes(Run(requests, limit), r, limit) == Passes(Run(Only(requests, user), limit), r, limit)
    ensures user in Run(requests, limit) <==> user in Run(Only(requests, user), limit)
    ensures user in Run(requests, limit) ==> Run(requests, limit)[user] == Run(Only(requests, user), limit)[user]
  {
    if requests != [] {
      var front, last := requests[..|requests| - 1], requests[|requests| - 1];
      OthersDoNotMatter(front, limit, user, if last.user == Some(user) then last else r);
      if last.user == Some(user) {
        assert Only(requests, user)[..|Only(front, user)|] == Only(front, user);
      } else {
        assert Only(requests, user) == Only(front, user);
      }
    }
  }

  // ----- the middleware -----

  class Limiter {
    var lastRequest: map<int, int>
    const limit: int

    constructor (limit: int)
      ensures lastRequest == Run([], limit) && this.limit == limit
    {
      lastRequest := map[];
      this.limit := limit;
    }

    method Handle(r: Request) returns (next: bool)
      modifies this
      ensures next == Passes(old(lastRequest), r, limit)
      ensures lastRequest == Step(old(lastRequest), r, limit)
    {
      if r.user.None? {
        return true;
      }
      if r.user.value in lastRequest && r.checked - lastRequest[r.user.value] < limit {
        return false;
      }
      lastRequest := lastRequest[r.user.value := r.stored];
      return true;
    }
  }
}
