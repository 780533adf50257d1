/**
 The two lookups against TMDB: `get_recommendations` (discover by genre when
 the prompt names one, free-text search otherwise, at most five results) and
 `get_random_movie` (one record picked from a random page of popular movies).

 The HTTP exchange is a parameter `fetch` from the request URL to a
 `Response`; `Failed` stands for every exception the lookup swallows (network
 error, non-2xx status, undecodable body). The random page number and the
 random index are parameters as well.
 */
module Tmdb {
  import opened Wrappers
  import opened Strings
  import opened Genres
  import opened Movies

  const MaxResults := 5
  const ApiBase := "https://api.themoviedb.org/3/"
  const MinPage := 1
  const MaxPage := 500

  /** The request the bot sends to TMDB. */
  datatype Endpoint =
    | DiscoverByGenres(genreIds: string)
    | Search(query: string)
    | DiscoverPopular(page: nat)

  /** The decoded body's `results` member, or a failed call. */
  datatype Response = Failed | Answered(results: Field<seq<Movie>>)

  function DiscoverPrefix(apiKey: string): string {
    ApiBase + "discover/movie?api_key=" + apiKey
  }

  /** The popular-movies request up to its page number. */
  function PopularPrefix(apiKey: string): string {
    DiscoverPrefix(apiKey) + "&sort_by=popularity.desc&page="
  }

  /** The request URL, with the prompt and the ids interpolated as they are. */
  function Url(e: Endpoint, apiKey: string): (url: string)
    ensures IsPrefix(DiscoverPrefix(apiKey), url) <==> !e.Search?
    ensures e.DiscoverByGenres? ==> url == DiscoverPrefix(apiKey) + "&with_genres=" + e.genreIds
    ensures e.Search? ==> url == ApiBase + "search/movie?api_key=" + apiKey + "&query=" + e.query
  {
    match e
    case DiscoverByGenres(ids) => DiscoverPrefix(apiKey) + "&with_genres=" + ids
    case Search(q) =>
      var url := ApiBase + "search/movie?api_key=" + apiKey + "&query=" + q;
      assert url[|ApiBase|] == 's' != DiscoverPrefix(apiKey)[|ApiBase|];
      url
    case DiscoverPopular(page) =>
      PopularPrefix(apiKey) + NatToString(page)
  }

  /** Discover by the extracted genres when some keyword occurs in the prompt, search by the prompt otherwise. */
  function RecommendationRequest(prompt: string, lex: Lexicon): (e: Endpoint)
    ensures e.DiscoverByGenres? || e.Search?
    ensures e.DiscoverByGenres? <==> exists i :: 0 <= i < |lex| && Contains(Lower(prompt), lex[i].0)
    ensures e.DiscoverByGenres? ==> ParseIdList(e.genreIds) == Some(Ids(MatchingEntries(lex, Lower(prompt))))
    ensures e.Search? ==> e.query == prompt
  {
    var ids := ExtractGenreIds(prompt, lex);
    GenreIdsRoundTrip(prompt, lex);
    if ids != [] then DiscoverByGenres(ids) else Search(prompt)
  }

  /** `data.get("results", [])` is a list of records. */
  predicate Listed(resp: Response) {
    resp.Answered? && !resp.results.Null?
  }

  function ResultList(resp: Response): seq<Movie>
    requires Listed(resp)
  {
    if resp.results.Present? then resp.results.value else []
  }

  /** The records that are kept: the first five of the list, in the order TMDB gave them. */
  function Top(resp: Response): (top: seq<Movie>)
    requires Listed(resp)
    ensures |top| == Min(MaxResults, |ResultList(resp)|)
    ensures forall k :: 0 <= k < |top| ==> top[k] == ResultList(resp)[k]
  {
    ResultList(resp)[..Min(MaxResults, |ResultList(resp)|)]
  }

  /**
   What `get_recommendations` returns for a response: the formatted first five
   records, or nothing when the call failed, `results` was `null` (slicing
   `None` raises) or one of the kept records could not be formatted.
   */
  function Shortlist(resp: Response, esc: string -> string): (r: seq<Entry>)
    ensures |r| <= MaxResults
    ensures !Listed(resp) ==> r == []
    ensures Listed(resp) && (forall k :: 0 <= k < |Top(resp)| ==> Formattable(Top(resp)[k])) ==>
      |r| == Min(MaxResults, |ResultList(resp)|) &&
      forall k :: 0 <= k < |r| ==> FormatMovie(ResultList(resp)[k], esc) == Some(r[k])
    ensures Listed(resp) && (exists k :: 0 <= k < |Top(resp)| && !Formattable(Top(resp)[k])) ==> r == []
  {
    if !Listed(resp) then []
    else match FormatMovies(Top(resp), esc)
      case Some(es) => es
      case None => []
  }

  /** `get_recommendations`: fetch the routed URL and keep at most five formatted results. */
  function GetRecommendations(prompt: string, lex: Lexicon, esc: string -> string, apiKey: string,
                              fetch: string -> Response): (r: seq<Entry>)
    ensures |r| <= MaxResults
    ensures r == Shortlist(fetch(Url(RecommendationRequest(prompt, lex), apiKey)), esc)
  {
    var url := Url(RecommendationRequest(prompt, lex), apiKey);
    Shortlist(fetch(url), esc)
  }

  /** The random index is within a non-empty page, as `random.choice` guarantees. */
  predicate PickInRange(resp: Response, pick: nat) {
    resp.Answered? && resp.results.Present? && resp.results.value != [] ==> pick < |resp.results.value|
  }

  /**
   What `get_random_movie` returns for a response: Some of at most one entry,
   or None when the page had no results (the function falls off its end).
   */
  function RandomPick(resp: Response, pick: nat, esc: string -> string): (r: Option<seq<Entry>>)
    requires PickInRange(resp, pick)
    ensures r.Some? ==> |r.value| <= 1
    ensures r.None? <==> resp.Answered? && !(resp.results.Present? && resp.results.value != [])
    ensures resp.Failed? ==> r == Some([])
    ensures r.Some? && r.value != [] ==>
      resp.Answered? && resp.results.Present? && FormatMovie(resp.results.value[pick], esc) == Some(r.value[0])
    ensures resp.Answered? && resp.results.Present? && resp.results.value != [] ==>
      (r == Some([]) <==> !Formattable(resp.results.value[pick]))
  {
    match resp
    case Failed => Some([])
    case Answered(results) =>
      if results.Present? && results.value != [] then
        match FormatMovies([results.value[pick]], esc)
        case Some(es) => Some(es)
        case None => Some([])
      else None
  }

  /** The page number written into a popular-movies URL reads back as that page. */
  lemma RandomUrlPage(page: nat, apiKey: string)
    ensures var url := Url(DiscoverPopular(page), apiKey);
      IsPrefix(PopularPrefix(apiKey), url) && ParseInt(url[|PopularPrefix(apiKey)|..]) == Some(page)
  {
    var url := Url(DiscoverPopular(page), apiKey);
    assert url[|PopularPrefix(apiKey)|..] == NatToString(page) == IntToString(page);
    IntToStringRoundTrip(page);
  }

  /** `get_random_movie`: fetch a page of popular movies and format the record at the given index. */
  function GetRandomMovie(page: nat, pick: nat, esc: string -> string, apiKey: string,
                          fetch: string -> Response): (r: Option<seq<Entry>>)
    requires MinPage <= page <= MaxPage
    requires PickInRange(fetch(Url(DiscoverPopular(page), apiKey)), pick)
    ensures r.Some? ==> |r.value| <= 1
    ensures r == RandomPick(fetch(Url(DiscoverPopular(page), apiKey)), pick, esc)
  {
    RandomPick(fetch(Url(DiscoverPopular(page), apiKey)), pick, esc)
  }
}
