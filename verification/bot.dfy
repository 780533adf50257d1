/**
 The conversation handlers and reply delivery: `handle_prompt`,
 `random_command` and `send_recommendations`, as functions from their inputs
 to the messages the chat receives.

 A send to Telegram can fail; which sends fail is given by a `SendOracle`
 indexed by the entry's position. A failed entry is replaced by an apology;
 if the apology itself fails, the exception leaves the handler and the
 remaining entries are not sent.
 */
module Bot {
  import opened Wrappers
  import opened Strings
  import opened Genres
  import opened Movies
  import opened Tmdb

  const AskForInput := "Please type something to get a movie recommendation."
  const NoRecommendations := "No recommendations found. Try again later."
  const Apology := "Sorry, there was an error displaying the movie."

  datatype ParseMode = PlainText | MarkdownV2

  /** An outbound chat message: `reply_text` or `reply_photo` with a caption. */
  datatype Message =
    | Text(text: string, mode: ParseMode)
    | Photo(photo: string, caption: string, mode: ParseMode)

  /** Which sends fail: the entry's own send, and the apology sent in its place. */
  datatype SendOracle = SendOracle(entryFails: nat -> bool, apologyFails: nat -> bool)

  /** The messages the chat received, in order, and whether the handler ended by raising. */
  datatype Delivery = Delivery(sent: seq<Message>, raised: bool)

  /** The handler's effect: the URL looked up, if any, and what was delivered. */
  datatype Reply = Reply(lookup: Option<string>, delivery: Delivery)

  /** Python truthiness of the entry's poster URL: present and not the empty string. */
  predicate HasPoster(e: Entry) {
    e.poster.Some? && e.poster.value != []
  }

  /** A photo with the caption when the entry's poster URL is truthy, the caption as text otherwise. */
  function EntryMessage(e: Entry): (m: Message)
    ensures m.Photo? <==> HasPoster(e)
    ensures m.Photo? ==> m.photo == e.poster.value && m.caption == e.caption
    ensures m.Text? ==> m.text == e.caption
    ensures m.mode == MarkdownV2
  {
    if HasPoster(e) then Photo(e.poster.value, e.caption, MarkdownV2)
    else Text(e.caption, MarkdownV2)
  }

  /** A formatted record is sent as a photo exactly when its poster path is a non-empty string. */
  lemma FormattedEntryMessage(m: Movie, esc: string -> string)
    requires Formattable(m)
    ensures var msg := EntryMessage(FormatMovie(m, esc).value);
      && (msg.Photo? <==> Truthy(m.posterPath))
      && (msg.Photo? ==> msg.photo == PosterBase + m.posterPath.value)
  {
  }

  /**
   The message the chat receives for entry `j` when delivery reaches it without
   aborting: the apology when the entry's send fails, otherwise the entry itself.
   */
  function Outbound(es: seq<Entry>, oracle: SendOracle, j: nat): (m: Message)
    requires j < |es|
    ensures m.mode == MarkdownV2
    ensures oracle.entryFails(j) ==> m == Text(Apology, MarkdownV2)
    ensures !oracle.entryFails(j) ==> (m.Photo? <==> HasPoster(es[j]))
    ensures !oracle.entryFails(j) && m.Photo? ==> m.photo == es[j].poster.value && m.caption == es[j].caption
    ensures !oracle.entryFails(j) && m.Text? ==> m.text == es[j].caption
  {
    if oracle.entryFails(j) then Text(Apology, MarkdownV2) else EntryMessage(es[j])
  }

  /** Entry `j` aborts delivery: its send and the apology both fail. */
  predicate Aborts(oracle: SendOracle, j: nat) {
    oracle.entryFails(j) && oracle.apologyFails(j)
  }

  /** The loop of `send_recommendations` from entry `i` on. */
  function SendFrom(es: seq<Entry>, i: nat, oracle: SendOracle): (d: Delivery)
    requires i <= |es|
    ensures i + |d.sent| <= |es|
    ensures forall n :: 0 <= n < |d.sent| ==> d.sent[n] == Outbound(es, oracle, i + n)
    ensures forall j :: i <= j < i + |d.sent| ==> !Aborts(oracle, j)
    ensures d.raised ==> Aborts(oracle, i + |d.sent|)
    ensures !d.raised <==> i + |d.sent| == |es|
    decreases |es| - i
  {
    if i == |es| then Delivery([], false)
    else if Aborts(oracle, i) then Delivery([], true)
    else
      var rest := SendFrom(es, i + 1, oracle);
      Delivery([Outbound(es, oracle, i)] + rest.sent, rest.raised)
  }

  /** Python truthiness of the list handed to `send_recommendations` (None is falsy). */
  predicate Falsy(recs: Option<seq<Entry>>) {
    recs.None? || recs.value == []
  }

  /** `send_recommendations`. */
  function SendRecommendations(recs: Option<seq<Entry>>, oracle: SendOracle): (d: Delivery)
    ensures Falsy(recs) ==> d == Delivery([Text(NoRecommendations, PlainText)], false)
    ensures !Falsy(recs) ==> |d.sent| <= |recs.value|
    ensures !Falsy(recs) ==> forall n :: 0 <= n < |d.sent| ==> d.sent[n] == Outbound(recs.value, oracle, n)
    ensures !Falsy(recs) ==> (!d.raised <==> forall j :: 0 <= j < |recs.value| ==> !Aborts(oracle, j))
    ensures !Falsy(recs) && !d.raised ==> |d.sent| == |recs.value|
    ensures !Falsy(recs) && d.raised ==> Aborts(oracle, |d.sent|)
  {
    if Falsy(recs) then Delivery([Text(NoRecommendations, PlainText)], false)
    else
      var d := SendFrom(recs.value, 0, oracle);
      assert d.raised ==> Aborts(oracle, |d.sent|);
      d
  }

  /** `handle_prompt`: ask for input on a blank message, otherwise look up and deliver. */
  function HandlePrompt(text: string, lex: Lexicon, esc: string -> string, apiKey: string,
                        fetch: string -> Response, oracle: SendOracle): (r: Reply)
    ensures r.lookup.None? <==> AllSpace(text)
    ensures AllSpace(text) ==> r.delivery == Delivery([Text(AskForInput, PlainText)], false)
    ensures !AllSpace(text) ==> r.lookup == Some(Url(RecommendationRequest(Strip(text), lex), apiKey))
    ensures !AllSpace(text) ==> r.delivery == SendRecommendations(Some(Shortlist(fetch(r.lookup.value), esc)), oracle)
  {
    var prompt := Strip(text);
    if prompt == [] then Reply(None, Delivery([Text(AskForInput, PlainText)], false))
    else
      var url := Url(RecommendationRequest(prompt, lex), apiKey);
      Reply(Some(url), SendRecommendations(Some(GetRecommendations(prompt, lex, esc, apiKey, fetch)), oracle))
  }

  /** `random_command`: a page of popular movies, one record from it, then delivery. */
  function RandomCommand(page: nat, pick: nat, esc: string -> string, apiKey: string,
                         fetch: string -> Response, oracle: SendOracle): (r: Reply)
    requires MinPage <= page <= MaxPage
    requires PickInRange(fetch(Url(DiscoverPopular(page), apiKey)), pick)
    ensures r.lookup == Some(Url(DiscoverPopular(page), apiKey))
    ensures |r.delivery.sent| <= 1
    ensures r.delivery == SendRecommendations(RandomPick(fetch(r.lookup.value), pick, esc), oracle)
  {
    Reply(Some(Url(DiscoverPopular(page), apiKey)),
          SendRecommendations(GetRandomMovie(page, pick, esc, apiKey, fetch), oracle))
  }

  // ---------------------------------------------------------------------------
  // Properties of the delivered trace

  /**
   When no entry aborts delivery, every entry yields exactly one message, in order: the
   apology if its send failed, otherwise a photo exactly when its poster URL is truthy.
   */
  lemma OneMessagePerEntry(es: seq<Entry>, oracle: SendOracle)
    requires es != []
    requires forall j :: 0 <= j < |es| ==> !Aborts(oracle, j)
    ensures var d := SendRecommendations(Some(es), oracle);
      && !d.raised
      && |d.sent| == |es|
      && (forall n :: 0 <= n < |es| && oracle.entryFails(n) ==> d.sent[n] == Text(Apology, MarkdownV2))
      && (forall n :: 0 <= n < |es| && !oracle.entryFails(n) ==>
            (d.sent[n].Photo? <==> HasPoster(es[n])) && d.sent[n] == EntryMessage(es[n]))
  {
  }

  /** When every entry and every apology is rejected, nothing reaches the chat and the handler raises. */
  lemma EveryEntryRejected(es: seq<Entry>, oracle: SendOracle)
    requires es != []
    requires forall j :: oracle.entryFails(j) && oracle.apologyFails(j)
    ensures SendRecommendations(Some(es), oracle) == Delivery([], true)
  {
  }

  /** The random path's None is delivered exactly like an empty list. */
  lemma NoneDeliveredAsEmpty(oracle: SendOracle)
    ensures SendRecommendations(None, oracle) == SendRecommendations(Some([]), oracle)
    ensures SendRecommendations(None, oracle).sent == [Text(NoRecommendations, PlainText)]
  {
  }

  /**
   With every kept record formattable and every send succeeding, a response
   yields one message per kept result, at most five, or the single
   no-recommendations notice when there are none.
   */
  lemma ShortlistMessageCount(resp: Response, esc: string -> string, oracle: SendOracle)
    requires Listed(resp) && forall k :: 0 <= k < |Top(resp)| ==> Formattable(Top(resp)[k])
    requires forall j :: !oracle.entryFails(j)
    ensures var d := SendRecommendations(Some(Shortlist(resp, esc)), oracle);
      && !d.raised
      && (ResultList(resp) == [] ==> d.sent == [Text(NoRecommendations, PlainText)])
      && (ResultList(resp) != [] ==> |d.sent| == Min(MaxResults, |ResultList(resp)|))
  {
  }

  /** The same count for a non-blank prompt, through `handle_prompt`. */
  lemma PromptMessageCount(text: string, lex: Lexicon, esc: string -> string, apiKey: string,
                           fetch: string -> Response, oracle: SendOracle)
    requires !AllSpace(text)
    requires Listed(fetch(Url(RecommendationRequest(Strip(text), lex), apiKey)))
    requires var top := Top(fetch(Url(RecommendationRequest(Strip(text), lex), apiKey)));
      forall k :: 0 <= k < |top| ==> Formattable(top[k])
    requires forall j :: !oracle.entryFails(j)
    ensures var resp := fetch(Url(RecommendationRequest(Strip(text), lex), apiKey));
      var d := HandlePrompt(text, lex, esc, apiKey, fetch, oracle).delivery;
      && !d.raised
      && (ResultList(resp) == [] ==> d.sent == [Text(NoRecommendations, PlainText)])
      && (ResultList(resp) != [] ==> |d.sent| == Min(MaxResults, |ResultList(resp)|))
  {
  }

  // ---------------------------------------------------------------------------
  // Scenarios

  /** The prompt "comedy" against the lexicon comedy -> 35 discovers genre "35". */
  lemma ComedyRequest()
    ensures RecommendationRequest("comedy", [("comedy", 35)]) == DiscoverByGenres("35")
  {
  }

  /** Two formattable records, every send succeeding, arrive as two messages in service order. */
  lemma TwoRecordDelivery(esc: string -> string, m1: Movie, m2: Movie, oracle: SendOracle)
    requires Formattable(m1) && Formattable(m2)
    requires forall j :: !oracle.entryFails(j)
    ensures SendRecommendations(Some(Shortlist(Answered(Present([m1, m2])), esc)), oracle).sent ==
      [EntryMessage(FormatMovie(m1, esc).value), EntryMessage(FormatMovie(m2, esc).value)]
  {
    var resp := Answered(Present([m1, m2]));
    assert Top(resp) == [m1, m2];
    var es := [FormatMovie(m1, esc).value, FormatMovie(m2, esc).value];
    assert Shortlist(resp, esc) == es;
    OneMessagePerEntry(es, oracle);
    var d := SendRecommendations(Some(es), oracle);
    assert d.sent == [EntryMessage(es[0]), EntryMessage(es[1])];
  }

  /** "comedy" is not blank and strips to itself. */
  lemma ComedyStripped()
    ensures !AllSpace("comedy") && Strip("comedy") == "comedy"
  {
    assert !IsSpace("comedy"[0]);
    assert SkipSpace("comedy", 0) == 0;
  }

  /** The prompt "comedy" is looked up with `with_genres=35`, and the response is delivered. */
  lemma ComedyLookup(esc: string -> string, apiKey: string, fetch: string -> Response, oracle: SendOracle)
    ensures var url := DiscoverPrefix(apiKey) + "&with_genres=35";
      HandlePrompt("comedy", [("comedy", 35)], esc, apiKey, fetch, oracle) ==
        Reply(Some(url), SendRecommendations(Some(Shortlist(fetch(url), esc)), oracle))
  {
    ComedyStripped();
    ComedyRequest();
    var url := DiscoverPrefix(apiKey) + "&with_genres=35";
    assert Url(RecommendationRequest(Strip("comedy"), [("comedy", 35)]), apiKey) == url;
  }

  /**
   The prompt "comedy" with the lexicon entry comedy -> 35 discovers genre 35
   and delivers the two returned records in order.
   */
  lemma ComedyScenario(esc: string -> string, apiKey: string, fetch: string -> Response,
                       m1: Movie, m2: Movie, oracle: SendOracle)
    requires Formattable(m1) && Formattable(m2)
    requires fetch(DiscoverPrefix(apiKey) + "&with_genres=35") == Answered(Present([m1, m2]))
    requires forall j :: !oracle.entryFails(j)
    ensures var r := HandlePrompt("comedy", [("comedy", 35)], esc, apiKey, fetch, oracle);
      && r.lookup == Some(DiscoverPrefix(apiKey) + "&with_genres=35")
      && r.delivery.sent == [EntryMessage(FormatMovie(m1, esc).value), EntryMessage(FormatMovie(m2, esc).value)]
  {
    ComedyLookup(esc, apiKey, fetch, oracle);
    TwoRecordDelivery(esc, m1, m2, oracle);
  }

  /** `/random` on an empty page delivers the single no-recommendations notice. */
  lemma RandomEmptyPageScenario(page: nat, esc: string -> string, apiKey: string,
                                fetch: string -> Response, oracle: SendOracle)
    requires MinPage <= page <= MaxPage
    requires fetch(Url(DiscoverPopular(page), apiKey)) == Answered(Present([]))
    ensures RandomCommand(page, 0, esc, apiKey, fetch, oracle).delivery.sent == [Text(NoRecommendations, PlainText)]
  {
  }
}
