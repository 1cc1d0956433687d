/** The loop behind the movies and series grids: starting at the selected
    page, fetch consecutive pages of the popular list until 24 titles with a
    poster have accumulated, the provider reports the last page, or a page
    comes back without results; then show the first 24.

    The network is a finite sequence of replies: reply `k` answers the `k`-th
    request, which asks for page `start + k`. A request past the end of the
    sequence fails like a fetch that throws. */
module PopularFeed {
  import opened Basics
  import opened Media

  /** `MOVIES_PER_PAGE` and `SERIES_PER_PAGE`. */
  const PerPage := 24

  /** One reply: a thrown fetch, or a page with the page number it reports,
      the total page count and its results (None when the field is missing). */
  datatype Reply = Thrown | Page(page: int, totalPages: int, results: Option<seq<Media>>)

  /** What a load leaves behind: the titles shown (None when a fetch threw:
      the error message replaces the grid), the pagination's total page
      count, and the API pages requested, in order. */
  datatype Outcome = Outcome(shown: Option<seq<Media>>, totalPages: int, requested: seq<int>)

  function ReplyAt(replies: seq<Reply>, k: nat): Reply {
    if k < |replies| then replies[k] else Thrown
  }

  /** The titles with a poster that reply `k` contributes. */
  function Posters(r: Reply): seq<Media> {
    if r.Page? && r.results.Some? then WithPosters(r.results.value) else []
  }

  /** The poster-filtered results of the first `n` replies, in fetch order. */
  function Gathered(replies: seq<Reply>, n: nat): seq<Media> {
    if n == 0 then [] else Gathered(replies, n - 1) + Posters(ReplyAt(replies, n - 1))
  }

  /** `slice(0, 24)`. */
  function Take(s: seq<Media>): seq<Media> {
    if |s| <= PerPage then s else s[..PerPage]
  }

  /** The first 24 titles, or all of them when there are fewer. */
  lemma TakeIsPrefix(s: seq<Media>)
    ensures |Take(s)| == if |s| < PerPage then |s| else PerPage
    ensures Take(s) == s[..|Take(s)|]
  {
  }

  /** After reply `k` the loop asks for another page: the reply is a page
      with results, not the last page, and fewer than 24 titles are in. */
  predicate Continues(replies: seq<Reply>, k: nat) {
    var r := ReplyAt(replies, k);
    r.Page? && r.results.Some? && r.page < r.totalPages && Count(replies, k + 1) < PerPage
  }

  /** How many titles the first `n` replies offer. */
  function Count(replies: seq<Reply>, n: nat): nat {
    if n == 0 then 0 else Count(replies, n - 1) + |Posters(ReplyAt(replies, n - 1))|
  }

  lemma {:induction false} CountIsLength(replies: seq<Reply>, n: nat)
    ensures Count(replies, n) == |Gathered(replies, n)|
  {
    if n > 0 {
      CountIsLength(replies, n - 1);
      var more := Posters(ReplyAt(replies, n - 1));
      assert Gathered(replies, n) == Gathered(replies, n - 1) + more;
      assert Count(replies, n) == Count(replies, n - 1) + |more|;
    }
  }

  /** The pagination total after requests `from` to `n - 1`: the total
      reported by the reply for API page 1 when that page was among them
      and had results, `total` otherwise. */
  function TotalAfter(start: int, total: int, replies: seq<Reply>, from: nat, n: nat): int {
    var k := 1 - start;
    if from <= k < n && ReplyAt(replies, k).Page? && ReplyAt(replies, k).results.Some?
    then ReplyAt(replies, k).totalPages else total
  }

  /** The API pages `start`, `start + 1`, ... asked for by `n` requests. */
  function Pages(start: int, n: nat): (r: seq<int>)
    ensures |r| == n
  {
    if n == 0 then [] else Pages(start, n - 1) + [start + n - 1]
  }

  lemma {:induction false} PagesAreConsecutive(start: int, n: nat)
    ensures forall i :: 0 <= i < n ==> Pages(start, n)[i] == start + i
  {
    if n > 0 {
      PagesAreConsecutive(start, n - 1);
    }
  }

  /** Everything gathered has a poster. */
  lemma {:induction false} GatheredHavePosters(replies: seq<Reply>, n: nat)
    ensures forall i :: 0 <= i < |Gathered(replies, n)| ==> HasPoster(Gathered(replies, n)[i])
  {
    if n > 0 {
      GatheredHavePosters(replies, n - 1);
    }
  }

  /** Where a load ends: how many requests it made, whether the last one
      threw, the pagination total it leaves and the titles it gathered. */
  datatype Run = Run(count: nat, threw: bool, total: int, gathered: seq<Media>)

  /** The total page count after reply `k`: API page 1's reply sets it when
      it carries results. */
  function TotalStep(start: int, replies: seq<Reply>, k: nat, total: int): int {
    var reply := ReplyAt(replies, k);
    if reply.Page? && reply.results.Some? && start + k == 1 then reply.totalPages else total
  }

  /** Reference definition of the load from request `k` on, entered with
      fewer than 24 titles gathered: request `k` is made, and the load moves
      on to request `k + 1` exactly when `Continues` holds of it. */
  function RunFrom(start: int, replies: seq<Reply>, k: nat, total: int): (r: Run)
    requires k <= |replies|
    ensures k < r.count <= |replies| + 1
    ensures r.threw <==> ReplyAt(replies, r.count - 1).Thrown?
    ensures !Continues(replies, r.count - 1)
    decreases |replies| - k
  {
    var total' := TotalStep(start, replies, k, total);
    if Continues(replies, k) then RunFrom(start, replies, k + 1, total')
    else Run(k + 1, ReplyAt(replies, k).Thrown?, total', Gathered(replies, k + 1))
  }

  /** One step of the reference definition. */
  lemma RunFromStep(start: int, replies: seq<Reply>, k: nat, total: int)
    requires k <= |replies|
    ensures Continues(replies, k) ==>
              k < |replies| && RunFrom(start, replies, k, total) == RunFrom(start, replies, k + 1, TotalStep(start, replies, k, total))
    ensures !Continues(replies, k) ==> RunFrom(start, replies, k, total).count == k + 1
  {
  }

  /** The load goes on while `Continues` holds of the latest reply... */
  lemma {:induction false} RunFromContinues(start: int, replies: seq<Reply>, k: nat, total: int)
    requires k <= |replies|
    ensures forall j :: k <= j < RunFrom(start, replies, k, total).count - 1 ==> Continues(replies, j)
    decreases |replies| - k
  {
    RunFromStep(start, replies, k, total);
    if Continues(replies, k) {
      RunFromContinues(start, replies, k + 1, TotalStep(start, replies, k, total));
    }
  }

  /** The load ends with everything the fetched pages offered. */
  lemma {:induction false} RunFromGathers(start: int, replies: seq<Reply>, k: nat, total: int)
    requires k <= |replies|
    ensures var r := RunFrom(start, replies, k, total);
      r.gathered == Gathered(replies, r.count)
    decreases |replies| - k
  {
    var total' := TotalStep(start, replies, k, total);
    if Continues(replies, k) {
      assert RunFrom(start, replies, k, total) == RunFrom(start, replies, k + 1, total');
      RunFromGathers(start, replies, k + 1, total');
    } else {
      assert RunFrom(start, replies, k, total).gathered == Gathered(replies, k + 1);
    }
  }

  /** The total page count is taken from API page 1's reply, if that page
      was among the requests and had results. */
  lemma {:induction false} RunFromTotal(start: int, replies: seq<Reply>, k: nat, total: int)
    requires k <= |replies|
    ensures var r := RunFrom(start, replies, k, total);
      r.total == TotalAfter(start, total, replies, k, r.count)
    decreases |replies| - k
  {
    if Continues(replies, k) {
      var total' := TotalStep(start, replies, k, total);
      RunFromTotal(start, replies, k + 1, total');
    }
  }

  /** The outcome a finished load leaves on the page. */
  function Finish(start: int, r: Run): Outcome {
    Outcome(if r.threw then None else Some(Take(r.gathered)), r.total, Pages(start, r.count))
  }

  /** A load of UI page `start` with the pagination total `total` on entry.
      It makes at least one request, asks for consecutive API pages from
      `start`, goes on exactly while `Continues` holds, fails exactly when
      its last request throws, and otherwise shows the first (at most 24)
      titles with a poster, in fetch order. */
  function Load(start: int, total: int, replies: seq<Reply>): (r: Outcome)
    ensures var n := |r.requested|;
      && 1 <= n <= |replies| + 1
      && (forall i :: 0 <= i < n ==> r.requested[i] == start + i)
      && (forall j :: 0 <= j < n - 1 ==> Continues(replies, j))
      && !Continues(replies, n - 1)
      && (r.shown.None? <==> ReplyAt(replies, n - 1).Thrown?)
      && (r.shown.Some? ==> r.shown.value == Take(Gathered(replies, n)))
      && r.totalPages == TotalAfter(start, total, replies, 0, n)
  {
    RunFromContinues(start, replies, 0, total);
    RunFromGathers(start, replies, 0, total);
    RunFromTotal(start, replies, 0, total);
    PagesAreConsecutive(start, RunFrom(start, replies, 0, total).count);
    Finish(start, RunFrom(start, replies, 0, total))
  }

  /** The grid never holds more than 24 titles, all with a poster, and holds
      exactly 24 whenever the pages fetched offered that many. */
  lemma ShownBounds(start: int, total: int, replies: seq<Reply>)
    ensures var r := Load(start, total, replies);
      r.shown.Some? ==>
        && |r.shown.value| <= PerPage
        && (forall i :: 0 <= i < |r.shown.value| ==> HasPoster(r.shown.value[i]))
        && (|Gathered(replies, |r.requested|)| >= PerPage ==> |r.shown.value| == PerPage)
  {
    var n := |Load(start, total, replies).requested|;
    GatheredHavePosters(replies, n);
    TakeIsPrefix(Gathered(replies, n));
  }

  /** Only a load that starts from page 1 can change the total page count;
      from any later page the pagination keeps the total it had. */
  lemma TotalOnlyFromFirstPage(start: int, total: int, replies: seq<Reply>)
    ensures start > 1 ==> Load(start, total, replies).totalPages == total
    ensures start == 1 && 0 < |replies| && replies[0].Page? && replies[0].results.Some? ==>
              Load(start, total, replies).totalPages == replies[0].totalPages
  {
  }

  /** The loop as written, from the head of the loop with request `k` next,
      `acc` gathered so far and `total` the pagination total: it stops when
      24 titles are in, when a fetch throws, when a reply has no results and
      after the last page. */
  function Fill(start: int, replies: seq<Reply>, k: nat, acc: seq<Media>, total: int): Run
    requires k <= |replies|
    decreases |replies| - k
  {
    if |acc| >= PerPage then Run(k, false, total, acc)
    else
      var reply := ReplyAt(replies, k);
      if reply.Thrown? then Run(k + 1, true, total, acc)
      else if reply.results.None? then Run(k + 1, false, total, acc)
      else
        var acc' := acc + WithPosters(reply.results.value);
        var total' := if start + k == 1 then reply.totalPages else total;
        if reply.page >= reply.totalPages then Run(k + 1, false, total', acc')
        else Fill(start, replies, k + 1, acc', total')
  }

  /** Entered with what the earlier replies offered, the loop as written ends
      where the reference definition does. */
  lemma {:induction false} FillIsRunFrom(start: int, replies: seq<Reply>, k: nat, acc: seq<Media>, total: int)
    requires k <= |replies| && acc == Gathered(replies, k) && |acc| < PerPage
    ensures Fill(start, replies, k, acc, total) == RunFrom(start, replies, k, total)
    decreases |replies| - k
  {
    if Continues(replies, k) {
      FillGoesOn(start, replies, k, acc, total);
      var acc' := acc + Posters(ReplyAt(replies, k));
      FillIsRunFrom(start, replies, k + 1, acc', TotalStep(start, replies, k, total));
    } else {
      FillEnds(start, replies, k, acc, total);
    }
  }

  /** Reply `k` adds its titles with a poster to what the earlier replies
      gathered, and the count follows. */
  lemma GatheredStep(replies: seq<Reply>, k: nat, acc: seq<Media>)
    requires acc == Gathered(replies, k)
    ensures Gathered(replies, k + 1) == acc + Posters(ReplyAt(replies, k))
    ensures Count(replies, k + 1) == |acc + Posters(ReplyAt(replies, k))|
  {
    CountIsLength(replies, k + 1);
  }

  /** When `Continues` holds of reply `k`, both definitions move on to
      request `k + 1`. */
  lemma FillGoesOn(start: int, replies: seq<Reply>, k: nat, acc: seq<Media>, total: int)
    requires k <= |replies| && acc == Gathered(replies, k) && |acc| < PerPage
    requires Continues(replies, k)
    ensures var acc' := acc + Posters(ReplyAt(replies, k));
      var total' := TotalStep(start, replies, k, total);
      && k < |replies| && acc' == Gathered(replies, k + 1) && |acc'| < PerPage
      && Fill(start, replies, k, acc, total) == Fill(start, replies, k + 1, acc', total')
      && RunFrom(start, replies, k, total) == RunFrom(start, replies, k + 1, total')
  {
    GatheredStep(replies, k, acc);
  }

  /** When it does not, both definitions end with request `k`. */
  lemma FillEnds(start: int, replies: seq<Reply>, k: nat, acc: seq<Media>, total: int)
    requires k <= |replies| && acc == Gathered(replies, k) && |acc| < PerPage
    requires !Continues(replies, k)
    ensures Fill(start, replies, k, acc, total) == RunFrom(start, replies, k, total)
  {
    var reply := ReplyAt(replies, k);
    GatheredStep(replies, k, acc);
    var run := Run(k + 1, reply.Thrown?, TotalStep(start, replies, k, total), acc + Posters(reply));
    assert RunFrom(start, replies, k, total) == run;
    if reply.Thrown? || reply.results.None? {
      FillEndsAtFailure(start, replies, k, acc, total);
    } else if reply.page >= reply.totalPages {
      FillEndsAtLastPage(start, replies, k, acc, total);
    } else {
      FillEndsWhenFull(start, replies, k, acc, total);
    }
  }

  lemma FillEndsAtFailure(start: int, replies: seq<Reply>, k: nat, acc: seq<Media>, total: int)
    requires k <= |replies| && |acc| < PerPage
    requires ReplyAt(replies, k).Thrown? || ReplyAt(replies, k).results.None?
    ensures Fill(start, replies, k, acc, total) == Run(k + 1, ReplyAt(replies, k).Thrown?, total, acc)
  {
  }

  lemma FillEndsAtLastPage(start: int, replies: seq<Reply>, k: nat, acc: seq<Media>, total: int)
    requires k <= |replies| && |acc| < PerPage
    requires var r := ReplyAt(replies, k); r.Page? && r.results.Some? && r.page >= r.totalPages
    ensures var r := ReplyAt(replies, k);
      Fill(start, replies, k, acc, total) ==
        Run(k + 1, false, TotalStep(start, replies, k, total), acc + WithPosters(r.results.value))
  {
  }

  lemma FillEndsWhenFull(start: int, replies: seq<Reply>, k: nat, acc: seq<Media>, total: int)
    requires k <= |replies| && |acc| < PerPage
    requires var r := ReplyAt(replies, k);
      r.Page? && r.results.Some? && r.page < r.totalPages && |acc + WithPosters(r.results.value)| >= PerPage
    ensures var r := ReplyAt(replies, k);
      Fill(start, replies, k, acc, total) ==
        Run(k + 1, false, TotalStep(start, replies, k, total), acc + WithPosters(r.results.value))
  {
    var r := ReplyAt(replies, k);
    var acc' := acc + WithPosters(r.results.value);
    assert Fill(start, replies, k, acc, total) == Fill(start, replies, k + 1, acc', TotalStep(start, replies, k, total));
  }

  /** The loop as written shows what the reference load shows. */
  lemma FillMatchesLoad(start: int, total: int, replies: seq<Reply>)
    ensures Finish(start, Fill(start, replies, 0, [], total)) == Load(start, total, replies)
  {
    FillIsRunFrom(start, replies, 0, [], total);
  }

  /** The effect itself: `while (withImage.length < 24)` over the replies,
      with `apiPage` counting up from the selected page. */
  method LoadLoop(start: int, total: int, replies: seq<Reply>) returns (out: Outcome)
    ensures out == Finish(start, Fill(start, replies, 0, [], total))
  {
    var acc: seq<Media> := [];
    var apiPage := start;
    var requested: seq<int> := [];
    var totalPages := total;
    var k: nat := 0;
    while |acc| < PerPage
      invariant k <= |replies|
      invariant apiPage == start + k
      invariant requested == Pages(start, k)
      invariant Fill(start, replies, k, acc, totalPages) == Fill(start, replies, 0, [], total)
      decreases |replies| - k
    {
      var data := ReplyAt(replies, k);
      requested := requested + [apiPage];
      assert requested == Pages(start, k + 1);
      if data.Thrown? {
        return Outcome(None, totalPages, requested);
      }
      if data.results.None? {
        return Outcome(Some(Take(acc)), totalPages, requested);
      }
      acc := acc + WithPosters(data.results.value);
      if apiPage == 1 {
        totalPages := data.totalPages;
      }
      if data.page >= data.totalPages {
        return Outcome(Some(Take(acc)), totalPages, requested);
      }
      apiPage := apiPage + 1;
      k := k + 1;
    }
    return Outcome(Some(Take(acc)), totalPages, requested);
  }

  /** The series grid hands each series to the movie card under movie field
      names: its name as the title, its first air date as the release date. */
  function SeriesCard(m: Media): (c: Media)
    ensures c.title == m.name && c.releaseDate == m.firstAirDate
    ensures c.(title := m.title, releaseDate := m.releaseDate) == m
  {
    m.(title := m.name, releaseDate := m.firstAirDate)
  }
}
