/**
 * The pagination state of `src/components/InfinitePaperList.tsx`: the
 * papers shown so far, the offset of the next page, whether more pages
 * exist, and whether a page is being fetched. Fetching a page is one atomic
 * step whose reply is a parameter; the method returns the request it made.
 */
module PaperList {
  import opened Common
  import opened Arxiv

  /** What `/api/search.json` answered: a failure (a non-OK status, a network or a JSON error) or a page. */
  datatype PageReply = Failed | Page(entries: seq<Paper>, totalResults: int)

  /** `/api/search.json?q=<query>&start=<start>`. */
  datatype SearchRequest = SearchRequest(query: string, start: int)

  class InfiniteList {
    var query: string
    var papers: seq<Paper>
    var loading: bool
    var hasMore: bool
    var offset: int

    /** The offset of the next page is the number of papers shown. */
    predicate Valid()
      reads this
    {
      offset == |papers|
    }

    /** The initial state: the server-rendered papers, and more pages when fewer than the total were sent. */
    constructor (initialPapers: seq<Paper>, query: string, totalResults: int)
      ensures Valid()
      ensures papers == initialPapers && offset == |initialPapers| && this.query == query
      ensures hasMore <==> |initialPapers| < totalResults
      ensures !loading
    {
      this.query := query;
      papers := initialPapers;
      loading := false;
      hasMore := |initialPapers| < totalResults;
      offset := |initialPapers|;
    }

    /** The effect that runs when the props change: back to the first page of the new results. */
    method Reset(initialPapers: seq<Paper>, query: string, totalResults: int)
      modifies this
      ensures Valid()
      ensures papers == initialPapers && offset == |initialPapers| && this.query == query
      ensures hasMore <==> |initialPapers| < totalResults
      ensures loading == old(loading)
    {
      this.query := query;
      papers := initialPapers;
      hasMore := |initialPapers| < totalResults;
      offset := |initialPapers|;
    }

    /**
     * `loadMorePapers`: asks for the page that starts right after the papers
     * shown. A non-empty page is appended, advancing the offset by its
     * length, and ends the list when the old offset plus its length reaches
     * the reported total; an empty page ends the list; a failure changes
     * nothing. Loading is over afterwards in every case, and a list that has
     * ended stays ended.
     */
    method LoadMorePapers(reply: PageReply) returns (req: SearchRequest)
      requires Valid()
      modifies this`papers, this`loading, this`hasMore, this`offset
      ensures Valid()
      ensures req == SearchRequest(query, |old(papers)|)
      ensures !loading
      ensures hasMore ==> old(hasMore)
      ensures reply.Failed? ==> papers == old(papers) && hasMore == old(hasMore)
      ensures reply.Page? && reply.entries != [] ==>
        && papers == old(papers) + reply.entries
        && (hasMore <==> old(hasMore) && |old(papers)| + |reply.entries| < reply.totalResults)
      ensures reply.Page? && reply.entries == [] ==> papers == old(papers) && !hasMore
    {
      loading := true;
      req := SearchRequest(query, offset);
      if reply.Page? {
        var entries := reply.entries;
        if |entries| > 0 {
          papers := papers + entries;
          var start := offset;
          offset := offset + |entries|;
          if start + |entries| >= reply.totalResults {
            hasMore := false;
          }
        } else {
          hasMore := false;
        }
      }
      loading := false;
    }

    /**
     * The observer callback: a page is fetched only when the sentinel is
     * visible, more pages exist and none is loading, and the fetch then has
     * the effect of `loadMorePapers` on a list that had not ended.
     */
    method OnIntersect(isIntersecting: bool, reply: PageReply) returns (req: Option<SearchRequest>)
      requires Valid()
      modifies this`papers, this`loading, this`hasMore, this`offset
      ensures Valid()
      ensures req.Some? <==> isIntersecting && old(hasMore) && !old(loading)
      ensures req.None? ==> unchanged(this)
      ensures req.Some? ==> req.value == SearchRequest(query, |old(papers)|) && !loading
      ensures req.Some? && reply.Failed? ==> papers == old(papers) && hasMore
      ensures req.Some? && reply.Page? && reply.entries != [] ==>
        && papers == old(papers) + reply.entries
        && (hasMore <==> |old(papers)| + |reply.entries| < reply.totalResults)
      ensures req.Some? && reply.Page? && reply.entries == [] ==> papers == old(papers) && !hasMore
    {
      if isIntersecting && hasMore && !loading {
        var r := LoadMorePapers(reply);
        req := Some(r);
      } else {
        req := None;
      }
    }
  }
}
