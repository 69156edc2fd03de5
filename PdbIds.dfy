/**
 * The identifier fetcher of scripts/download_data/get_pdb_ids.py.
 *
 * The search service is an oracle `server` from the request's paginate.start
 * to the response it gets; the rest of the query body never changes between
 * requests. Offsets strictly increase between requests, so each offset is
 * asked at most once and a function of the offset is as general as any
 * sequence of answers.
 */
module PdbIds {
  import opened Order
  import opened Text
  import opened Wrappers

  /** One answer of the search service: the HTTP status, and, when the status
      is 200, the parsed `total_count` and the `identifier` of every object in
      `result_set`, in order. */
  datatype Response = Response(status: int, totalCount: nat, identifiers: seq<string>)

  predicate Answered(r: Response) {
    r.status == 200
  }

  /** The set of the identifiers on a page, duplicates merged. */
  function PageIds(r: Response): (page: set<string>)
    ensures forall x :: x in page <==> x in r.identifiers
    ensures r.identifiers != [] ==> |page| >= 1
  {
    var page := set x | x in r.identifiers;
    assert r.identifiers != [] ==> r.identifiers[0] in page;
    page
  }

  /** The loop's variables: the offset of the next request, the count once
      known (-1 before the first answer) and the IDs gathered so far. */
  datatype Loop = Loop(start: nat, totalCount: int, pdbIds: set<string>)

  predicate WellFormed(st: Loop) {
    st.totalCount >= -1
  }

  /** The loop condition: the count is still unknown, or the offset is below it. */
  predicate Guard(st: Loop) {
    st.totalCount == -1 || st.start < st.totalCount
  }

  /** The variables after a page answered with 200: the count is taken if it
      is not yet known, the page's IDs are added, and the offset advances by
      their number. */
  function Next(st: Loop, response: Response): (n: Loop)
    requires WellFormed(st)
    ensures WellFormed(n) && n.totalCount >= 0
    ensures st.totalCount >= 0 ==> n.totalCount == st.totalCount
    ensures response.identifiers != [] ==> n.start > st.start
  {
    var current := PageIds(response);
    Loop(st.start + |current|,
         if st.totalCount == -1 then response.totalCount else st.totalCount,
         st.pdbIds + current)
  }

  /** How the loop ends, and the paginate.start of every request it sent. */
  datatype Fetched = Fetched(last: Loop, sent: seq<nat>)

  /** The while loop, run from a state of its variables. */
  function Crawl(server: nat -> Response, st: Loop): Fetched
    requires WellFormed(st)
    decreases (if st.totalCount == -1 then 1 else 0), (if st.start < st.totalCount then st.totalCount - st.start else 0)
  {
    if !Guard(st) then Fetched(st, [])
    else
      var response := server(st.start);
      if !Answered(response) then Fetched(st, [st.start])
      else if response.identifiers == [] then Fetched(Next(st, response), [st.start])
      else
        var rest := Crawl(server, Next(st, response));
        Fetched(rest.last, [st.start] + rest.sent)
  }

  /** The loop, resumed from `st` after the requests `sent`, completes the
      run `whole`. */
  predicate Resumes(server: nat -> Response, st: Loop, sent: seq<nat>, whole: Fetched)
    requires WellFormed(st)
  {
    var rest := Crawl(server, st);
    rest.last.pdbIds == whole.last.pdbIds && sent + rest.sent == whole.sent
  }

  /** One turn of the loop: a non-200 answer or an empty page ends the run,
      any other answer resumes it from the next state. */
  lemma Turn(server: nat -> Response, st: Loop, sent: seq<nat>, whole: Fetched)
    requires WellFormed(st) && Resumes(server, st, sent, whole)
    ensures !Guard(st) ==> st.pdbIds == whole.last.pdbIds && sent == whole.sent
    ensures Guard(st) && !Answered(server(st.start)) ==>
      st.pdbIds == whole.last.pdbIds && sent + [st.start] == whole.sent
    ensures Guard(st) && Answered(server(st.start)) && server(st.start).identifiers == [] ==>
      Next(st, server(st.start)).pdbIds == whole.last.pdbIds && sent + [st.start] == whole.sent
    ensures Guard(st) && Answered(server(st.start)) && server(st.start).identifiers != [] ==>
      Resumes(server, Next(st, server(st.start)), sent + [st.start], whole)
  {
    if Guard(st) && Answered(server(st.start)) && server(st.start).identifiers != [] {
      var rest := Crawl(server, Next(st, server(st.start)));
      assert sent + ([st.start] + rest.sent) == (sent + [st.start]) + rest.sent;
    }
  }

  /** The loop's starting state. */
  function Initial(): (st: Loop)
    ensures WellFormed(st) && Guard(st) && st.pdbIds == {} && st.start == 0
  {
    Loop(0, -1, {})
  }

  /** A whole run of get_pdb_ids. */
  function Fetch(server: nat -> Response): Fetched {
    Crawl(server, Initial())
  }

  /** The union of the pages answered with 200 at the given offsets. */
  function Gathered(server: nat -> Response, offsets: seq<nat>): set<string> {
    if offsets == [] then {}
    else
      (if Answered(server(offsets[0])) then PageIds(server(offsets[0])) else {})
      + Gathered(server, offsets[1..])
  }

  /** get_pdb_ids(): the sorted identifiers; the offsets it sent are ghost,
      recorded only to relate the loop to `Fetch`. */
  method GetPdbIds(server: nat -> Response) returns (ids: seq<string>, ghost sent: seq<nat>)
    ensures StrictlySorted(ids)
    ensures ids == SortedIds(Fetch(server).last.pdbIds) && sent == Fetch(server).sent
  {
    var pdbIds: set<string> := {};
    var start: nat := 0;
    var totalCount: int := -1;
    sent := [];
    ghost var whole := Fetch(server);
    while totalCount == -1 || start < totalCount
      invariant totalCount >= -1
      invariant Resumes(server, Loop(start, totalCount, pdbIds), sent, whole)
      invariant !(totalCount == -1 || start < totalCount) ==> pdbIds == whole.last.pdbIds && sent == whole.sent
      decreases (if totalCount == -1 then 1 else 0), (if start < totalCount then totalCount - start else 0)
    {
      ghost var here := Loop(start, totalCount, pdbIds);
      Turn(server, here, sent, whole);
      sent := sent + [start];
      var response := server(start);
      if response.status != 200 {
        break;
      }
      if totalCount == -1 {
        totalCount := response.totalCount;
      }
      var currentIds := PageIds(response);
      pdbIds := pdbIds + currentIds;
      start := start + |currentIds|;
      assert Loop(start, totalCount, pdbIds) == Next(here, response);
      if response.identifiers == [] {
        break;
      }
      Turn(server, Loop(start, totalCount, pdbIds), sent, whole);
    }
    ids := SortedIds(pdbIds);
  }

  /** The result is everything held before plus every page answered with 200:
      a non-200 answer adds nothing and keeps what was gathered. */
  lemma {:induction false} CrawlGathers(server: nat -> Response, st: Loop)
    requires WellFormed(st)
    ensures var f := Crawl(server, st);
      f.last.pdbIds == st.pdbIds + Gathered(server, f.sent)
    decreases (if st.totalCount == -1 then 1 else 0), (if st.start < st.totalCount then st.totalCount - st.start else 0)
  {
    var f := Crawl(server, st);
    if !Guard(st) {
      assert f == Fetched(st, []);
      assert st.pdbIds + {} == st.pdbIds;
    } else {
      var response := server(st.start);
      GatheredCons(server, st.start, []);
      assert [st.start] + [] == [st.start];
      if !Answered(response) {
        assert f == Fetched(st, [st.start]);
        assert st.pdbIds + {} == st.pdbIds;
      } else if response.identifiers == [] {
        assert f == Fetched(Next(st, response), [st.start]);
      } else {
        var next := Next(st, response);
        CrawlGathers(server, next);
        var rest := Crawl(server, next);
        assert f == Fetched(rest.last, [st.start] + rest.sent);
        GatheredCons(server, st.start, rest.sent);
        var page := PageIds(response);
        assert rest.last.pdbIds == (st.pdbIds + page) + Gathered(server, rest.sent);
        assert (st.pdbIds + page) + Gathered(server, rest.sent) == st.pdbIds + (page + Gathered(server, rest.sent));
      }
    }
  }

  /** The pages gathered at a first offset and then at more. */
  lemma GatheredCons(server: nat -> Response, s: nat, rest: seq<nat>)
    ensures Gathered(server, [s] + rest) == (if Answered(server(s)) then PageIds(server(s)) else {}) + Gathered(server, rest)
  {
    assert ([s] + rest)[0] == s && ([s] + rest)[1..] == rest;
  }

  /** The requests of a crawl are chained: the first asks for the current
      offset, each next one for the previous offset plus the number of
      distinct IDs on the previous page, every request but the last was
      answered with a non-empty page, and the loop ends at the last offset
      plus the size of the last page when that was answered. */
  lemma {:induction false} CrawlOffsets(server: nat -> Response, st: Loop)
    requires WellFormed(st)
    ensures var f := Crawl(server, st);
      && (f.sent == [] <==> !Guard(st))
      && (f.sent != [] ==> f.sent[0] == st.start)
      && (forall k :: 0 <= k < |f.sent| - 1 ==>
            Answered(server(f.sent[k])) && server(f.sent[k]).identifiers != []
            && f.sent[k + 1] == f.sent[k] + |PageIds(server(f.sent[k]))|)
      && (f.sent == [] ==> f.last.start == st.start)
      && (f.sent != [] ==>
            var last := server(f.sent[|f.sent| - 1]);
            f.last.start == f.sent[|f.sent| - 1] + (if Answered(last) then |PageIds(last)| else 0))
    decreases (if st.totalCount == -1 then 1 else 0), (if st.start < st.totalCount then st.totalCount - st.start else 0)
  {
    if Guard(st) {
      var response := server(st.start);
      if Answered(response) && response.identifiers != [] {
        var next := Next(st, response);
        CrawlOffsets(server, next);
        var rest := Crawl(server, next);
        var f := Crawl(server, st);
        assert f.sent == [st.start] + rest.sent;
        forall k | 1 <= k < |f.sent| - 1
          ensures Answered(server(f.sent[k])) && server(f.sent[k]).identifiers != []
            && f.sent[k + 1] == f.sent[k] + |PageIds(server(f.sent[k]))|
        {
          assert f.sent[k] == rest.sent[k - 1] && f.sent[k + 1] == rest.sent[k];
        }
      }
    }
  }

  /** Why the loop stopped: its last request got a non-200 answer or an empty
      page, or the offset reached the count. */
  lemma {:induction false} CrawlStops(server: nat -> Response, st: Loop)
    requires WellFormed(st)
    ensures var f := Crawl(server, st);
      f.sent != [] ==>
        var last := server(f.sent[|f.sent| - 1]);
        !Answered(last) || last.identifiers == [] || (f.last.totalCount >= 0 && f.last.start >= f.last.totalCount)
    decreases (if st.totalCount == -1 then 1 else 0), (if st.start < st.totalCount then st.totalCount - st.start else 0)
  {
    if Guard(st) {
      var response := server(st.start);
      if Answered(response) && response.identifiers != [] {
        var next := Next(st, response);
        CrawlStops(server, next);
        var rest := Crawl(server, next);
        assert Crawl(server, st).sent == [st.start] + rest.sent;
      }
    }
  }

  /** Once known, the count never changes, every further request is sent
      only while its offset is below it, and at most `totalCount - start`
      requests follow. */
  lemma {:induction false} CrawlKeepsCount(server: nat -> Response, st: Loop)
    requires st.totalCount >= 0
    ensures var f := Crawl(server, st);
      && f.last.totalCount == st.totalCount
      && (forall k :: 0 <= k < |f.sent| ==> f.sent[k] < st.totalCount)
      && |f.sent| <= (if st.start < st.totalCount then st.totalCount - st.start else 0)
    decreases if st.start < st.totalCount then st.totalCount - st.start else 0
  {
    if Guard(st) {
      var response := server(st.start);
      if Answered(response) && response.identifiers != [] {
        var next := Next(st, response);
        CrawlKeepsCount(server, next);
        var rest := Crawl(server, next);
        assert Crawl(server, st) == Fetched(rest.last, [st.start] + rest.sent);
        assert forall k :: 1 <= k < 1 + |rest.sent| ==> ([st.start] + rest.sent)[k] == rest.sent[k - 1];
      }
    }
  }

  /** The gathered set never holds more IDs than the offset has advanced. */
  lemma {:induction false} CrawlBounded(server: nat -> Response, st: Loop)
    requires WellFormed(st) && |st.pdbIds| <= st.start
    ensures var f := Crawl(server, st);
      |f.last.pdbIds| <= f.last.start && st.start <= f.last.start
    decreases (if st.totalCount == -1 then 1 else 0), (if st.start < st.totalCount then st.totalCount - st.start else 0)
  {
    if Guard(st) {
      var response := server(st.start);
      if Answered(response) {
        var current := PageIds(response);
        var next := Next(st, response);
        assert |st.pdbIds + current| <= |st.pdbIds| + |current|;
        if response.identifiers != [] {
          CrawlBounded(server, next);
        }
      }
    }
  }

  /** A whole run: the first request asks for offset 0; the result is the
      union of the answered pages; it has no more IDs than the final offset;
      a first answer other than 200 ends the run with nothing; otherwise the
      count comes from the first answer alone, bounds every later offset,
      and at most max(1, count) requests are sent. */
  lemma FetchSummary(server: nat -> Response)
    ensures var f := Fetch(server);
      && |f.sent| >= 1 && f.sent[0] == 0
      && f.last.pdbIds == Gathered(server, f.sent)
      && |f.last.pdbIds| <= f.last.start
      && (!Answered(server(0)) ==> f.sent == [0] && f.last.pdbIds == {})
      && (Answered(server(0)) ==>
            var total := server(0).totalCount;
            && f.last.totalCount == total
            && (forall k :: 1 <= k < |f.sent| ==> f.sent[k] < total)
            && |f.sent| <= (if total > 1 then total else 1))
  {
    var f := Fetch(server);
    CrawlOffsets(server, Initial());
    CrawlGathers(server, Initial());
    CrawlBounded(server, Initial());
    var response := server(0);
    if Answered(response) && response.identifiers != [] {
      var next := Next(Initial(), response);
      var rest := Crawl(server, next);
      CrawlKeepsCount(server, next);
      assert f.sent == [0] + rest.sent;
      forall k | 1 <= k < |f.sent| ensures f.sent[k] < response.totalCount {
        assert f.sent[k] == rest.sent[k - 1];
      }
    }
  }

  /** get_pdb_ids can return more IDs than the service's count: an answer
      with more distinct IDs than `total_count` is kept whole. */
  lemma FetchMayExceedCount()
    ensures var server := (s: nat) => if s == 0 then Response(200, 1, ["1ABC", "2DEF"]) else Response(200, 1, []);
      |Fetch(server).last.pdbIds| == 2 && server(0).totalCount == 1
  {
    var server := (s: nat) => if s == 0 then Response(200, 1, ["1ABC", "2DEF"]) else Response(200, 1, []);
    var page := PageIds(server(0));
    assert page == {"1ABC", "2DEF"};
    assert |Fetch(server).last.pdbIds| == |{"1ABC", "2DEF"}|;
  }

  /** The `__main__` block: write the IDs one per line to pdb_ids.txt when
      there are any; return the text written, or None when nothing is. */
  method SaveIds(ids: seq<string>) returns (file: Option<string>)
    ensures ids == [] <==> file == None
    ensures file.Some? ==> file.value == JoinLines(ids)
  {
    if ids != [] {
      var content := WriteLines(ids);
      file := Some(content);
    } else {
      file := None;
    }
  }
}
