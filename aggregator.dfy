/**
 * The `/generate-ideas` handler (`generate`): read the request, run the harvesters the `source`
 * field selects (Hacker News, then Reddit, then app reviews), reject the requests that lack what
 * their source needs, and answer with the number of records gathered and the ideas made of them.
 */
module Aggregator {
  import opened Wrappers
  import opened Text
  import opened Records
  import Security
  import HackerNews
  import Reddit
  import Reviews
  import Ideas

  const DefaultSubreddits: seq<string> := ["SaaS", "startups"]

  const InvalidPayload := "Invalid JSON payload"
  const NoSubreddits := "Subreddits list cannot be empty for Reddit source"
  const NoAppName := "App Name cannot be empty for Reviews source"

  function NotFoundMessage(appName: string, platform: string): string
  {
    "App '" + appName + "' not found in " + platform + " store(s)."
  }

  /** `source`, `subreddits`, `app_name` and `platform` of the JSON body, None when absent. */
  datatype Request = Request(source: Option<string>, subreddits: Option<seq<string>>,
                             appName: Option<string>, platform: Option<string>)

  datatype HttpError = BadRequest(message: string) | NotFound(message: string)

  /** The 200 body: `raw_count` and `ideas`. */
  datatype Response = Response(rawCount: nat, ideas: seq<Ideas.Idea>)

  /** What each harvester and the language model see. */
  datatype World = World(hnNet: Security.Net, hnListing: Option<seq<string>>, hnFetch: nat -> HackerNews.Fetch,
                         redditNet: Security.Net, redditReplies: (nat, nat) -> Reddit.Reply,
                         stores: Reviews.Stores, llm: seq<Record> -> Option<seq<Ideas.RawIdea>>)

  /** A harvester run, with the arguments it was given. */
  datatype Harvester = HnRun | RedditRun(subs: seq<string>) | ReviewsRun(appName: string, platform: string)

  /** The harvesters run, in order, and the reply. */
  datatype Outcome = Outcome(ran: seq<Harvester>, reply: Result<Response, HttpError>)

  function OrElse<T>(o: Option<T>, default: T): T
  {
    match o case Some(v) => v case None => default
  }

  predicate WantsHn(source: string) { source == "hn" || source == "all" }

  predicate WantsReddit(source: string) { source == "reddit" || source == "all" }

  predicate WantsReviews(source: string) { source == "reviews" }

  /** `any(subs)`: some subreddit name is a non-empty string. */
  predicate AnyTruthy(subs: seq<string>)
  {
    exists i :: 0 <= i < |subs| && subs[i] != []
  }

  /** The records a harvester run produces (a review run that finds no app produces none). */
  function Output(h: Harvester, w: World): seq<Record>
  {
    match h
    case HnRun => HackerNews.Harvest(w.hnNet, w.hnListing, HackerNews.DefaultLimit, w.hnFetch)
    case RedditRun(subs) => Reddit.Harvest(w.redditNet, subs, w.redditReplies).records
    case ReviewsRun(name, platform) => OrElse(Reviews.Harvest(name, platform, w.stores), [])
  }

  /** The outputs of the runs, by position. */
  function Outputs(ran: seq<Harvester>, w: World): (os: seq<seq<Record>>)
    ensures |os| == |ran| && forall i :: 0 <= i < |ran| ==> os[i] == Output(ran[i], w)
  {
    seq(|ran|, i requires 0 <= i < |ran| => Output(ran[i], w))
  }

  /** The record lists one after another. */
  function Flatten(xs: seq<seq<Record>>): seq<Record>
  {
    if xs == [] then [] else Flatten(xs[..|xs| - 1]) + xs[|xs| - 1]
  }

  /** The harvesters run so far and the records they gathered. */
  datatype Gathering = Gathering(ran: seq<Harvester>, collected: seq<Record>)

  /** After a stage: go on with what was gathered, or stop with an error after the runs so far. */
  datatype Stage = Continue(g: Gathering) | Stop(ran: seq<Harvester>, error: HttpError)

  /** Hacker News runs for the sources `hn` and `all`. */
  function HnStage(source: string, w: World): Gathering
  {
    if WantsHn(source) then Gathering([HnRun], HackerNews.Harvest(w.hnNet, w.hnListing, HackerNews.DefaultLimit, w.hnFetch))
    else Gathering([], [])
  }

  /**
   * Reddit runs for the sources `reddit` and `all`; `reddit` needs a non-empty name among the
   * subreddits, and an empty list is replaced by the defaults.
   */
  function RedditStage(req: Request, source: string, g: Gathering, w: World): Stage
  {
    if !WantsReddit(source) then Continue(g)
    else
      var given := OrElse(req.subreddits, []);
      if source == "reddit" && !AnyTruthy(given) then Stop(g.ran, BadRequest(NoSubreddits))
      else
        var subs := if given == [] then DefaultSubreddits else given;
        Continue(Gathering(g.ran + [RedditRun(subs)], g.collected + Reddit.Harvest(w.redditNet, subs, w.redditReplies).records))
  }

  /** The reviews run for the source `reviews`; it needs a non-blank app name and an app that is found. */
  function ReviewsStage(req: Request, source: string, g: Gathering, w: World): Stage
  {
    if !WantsReviews(source) then Continue(g)
    else
      var name := OrElse(req.appName, "");
      if Strip(name) == [] then Stop(g.ran, BadRequest(NoAppName))
      else
        var platform := OrElse(req.platform, "android");
        var ran := g.ran + [ReviewsRun(name, platform)];
        match Reviews.Harvest(name, platform, w.stores)
        case None => Stop(ran, NotFound(NotFoundMessage(name, platform)))
        case Some(rs) => Continue(Gathering(ran, g.collected + rs))
  }

  /** `generate` for a body `payload` (None for a missing, unreadable or empty body). */
  function Handle(payload: Option<Request>, w: World): Outcome
  {
    match payload
    case None => Outcome([], Err(BadRequest(InvalidPayload)))
    case Some(req) =>
      var source := OrElse(req.source, "all");
      match RedditStage(req, source, HnStage(source, w), w)
      case Stop(ran, e) => Outcome(ran, Err(e))
      case Continue(g) =>
        match ReviewsStage(req, source, g, w)
        case Stop(ran, e) => Outcome(ran, Err(e))
        case Continue(g') => Outcome(g'.ran, Ok(Response(|g'.collected|, Ideas.Generate(g'.collected, w.llm))))
  }

  /** `generate`: extends the gathered records harvester by harvester, then asks for ideas. */
  method Generate(payload: Option<Request>, w: World) returns (reply: Result<Response, HttpError>, ghost ran: seq<Harvester>)
    // The first clause speaks of the compiled reply alone; the second adds the ghost run list.
    ensures reply == Handle(payload, w).reply
    ensures Outcome(ran, reply) == Handle(payload, w)
  {
    if payload.None? {
      return Err(BadRequest(InvalidPayload)), [];
    }
    var data := payload.value;
    var source := OrElse(data.source, "all");
    var collected: seq<Record> := [];
    ran := [];

    if WantsHn(source) {
      var hn := HackerNews.ScrapeHn(w.hnNet, w.hnListing, HackerNews.DefaultLimit, w.hnFetch);
      collected := collected + hn;
      ran := ran + [HnRun];
    }
    assert Gathering(ran, collected) == HnStage(source, w);
    ghost var g := Gathering(ran, collected);

    if WantsReddit(source) {
      var subs := OrElse(data.subreddits, []);
      if source == "reddit" && (subs == [] || !AnyTruthy(subs)) {
        assert RedditStage(data, source, g, w) == Stop(ran, BadRequest(NoSubreddits));
        return Err(BadRequest(NoSubreddits)), ran;
      }
      if subs == [] {
        subs := DefaultSubreddits;
      }
      var reddit, log := Reddit.ScrapeReddit(w.redditNet, subs, w.redditReplies);
      collected := collected + reddit;
      ran := ran + [RedditRun(subs)];
    }
    assert RedditStage(data, source, g, w) == Continue(Gathering(ran, collected));
    g := Gathering(ran, collected);

    if WantsReviews(source) {
      var appName := OrElse(data.appName, "");
      if appName == [] || Strip(appName) == [] {
        assert ReviewsStage(data, source, g, w) == Stop(ran, BadRequest(NoAppName));
        return Err(BadRequest(NoAppName)), ran;
      }
      var platform := OrElse(data.platform, "android");
      ran := ran + [ReviewsRun(appName, platform)];
      var reviews := Reviews.ScrapeReviews(appName, platform, w.stores);
      if reviews.None? {
        assert ReviewsStage(data, source, g, w) == Stop(ran, NotFound(NotFoundMessage(appName, platform)));
        return Err(NotFound(NotFoundMessage(appName, platform))), ran;
      }
      collected := collected + reviews.value;
    }
    assert ReviewsStage(data, source, g, w) == Continue(Gathering(ran, collected));

    var ideas := Ideas.GenerateBusinessIdeas(collected, w.llm);
    return Ok(Response(|collected|, ideas)), ran;
  }

  /**
   * The error replies: a missing body; `reddit` without a non-empty subreddit name; `reviews`
   * with a blank app name; `reviews` for an app the store search does not find (404, which is
   * not the same as an app with no usable reviews). Every other request is answered.
   */
  lemma Rejections(req: Request, w: World)
    ensures Handle(None, w) == Outcome([], Err(BadRequest(InvalidPayload)))
    ensures var source := OrElse(req.source, "all");
      var name := OrElse(req.appName, "");
      var platform := OrElse(req.platform, "android");
      var reply := Handle(Some(req), w).reply;
      && (reply == Err(BadRequest(NoSubreddits)) <==> source == "reddit" && !AnyTruthy(OrElse(req.subreddits, [])))
      && (reply == Err(BadRequest(NoAppName)) <==> source == "reviews" && Strip(name) == [])
      && (reply.Err? && reply.error.NotFound? <==>
            source == "reviews" && Strip(name) != [] && Reviews.FindApp(name, platform, w.stores).None?)
      && (reply.Err? && reply.error.NotFound? ==> reply.error.message == NotFoundMessage(name, platform))
      && (reply.Err? ==> reply.error in {BadRequest(NoSubreddits), BadRequest(NoAppName), NotFound(NotFoundMessage(name, platform))})
  {
    var source := OrElse(req.source, "all");
    var name := OrElse(req.appName, "");
    var platform := OrElse(req.platform, "android");
    Reviews.NotFoundIff(name, platform, w.stores);
  }

  /**
   * Which harvesters run, in which order and with what arguments: `hn` runs Hacker News; `all`
   * runs Hacker News then Reddit, on the default subreddits when none are given; `reddit` runs
   * Reddit on the given list, never on the defaults; `reviews` runs the review harvester alone;
   * any other source runs nothing and answers with no records and no ideas.
   */
  lemma SourceSelection(req: Request, w: World)
    ensures var source := OrElse(req.source, "all");
      var given := OrElse(req.subreddits, []);
      var ran := Handle(Some(req), w).ran;
      && (source == "hn" ==> ran == [HnRun])
      && (source == "all" ==> ran == [HnRun, RedditRun(if given == [] then DefaultSubreddits else given)])
      && (source == "reddit" ==> ran == if AnyTruthy(given) then [RedditRun(given)] else [])
      && (source == "reviews" ==>
            ran == if Strip(OrElse(req.appName, "")) == [] then []
                   else [ReviewsRun(OrElse(req.appName, ""), OrElse(req.platform, "android"))])
      && (!WantsHn(source) && !WantsReddit(source) && !WantsReviews(source) ==>
            Handle(Some(req), w) == Outcome([], Ok(Response(0, []))))
  {
    var given := OrElse(req.subreddits, []);
    if AnyTruthy(given) {
      assert given != [];
    }
  }

  /** With source `all` and no subreddits given (absent or an empty list), Reddit runs on `SaaS` and `startups`. */
  lemma DefaultSubredditsForAll(req: Request, w: World)
    requires OrElse(req.source, "all") == "all" && OrElse(req.subreddits, []) == []
    ensures RedditRun(["SaaS", "startups"]) in Handle(Some(req), w).ran
  {
    SourceSelection(req, w);
  }

  /** What was gathered is the outputs of the harvesters run so far, in run order. */
  predicate Consistent(g: Gathering, w: World)
  {
    g.collected == Flatten(Outputs(g.ran, w))
  }

  /** Running one more harvester appends its output. */
  lemma FlattenSnoc(ran: seq<Harvester>, h: Harvester, w: World)
    ensures Flatten(Outputs(ran + [h], w)) == Flatten(Outputs(ran, w)) + Output(h, w)
  {
    var os := Outputs(ran + [h], w);
    assert os[..|os| - 1] == Outputs(ran, w);
  }

  lemma HnStageConsistent(source: string, w: World)
    ensures Consistent(HnStage(source, w), w)
  {
    if WantsHn(source) {
      FlattenSnoc([], HnRun, w);
      assert Outputs([], w) == [];
    } else {
      assert Outputs([], w) == [];
    }
  }

  lemma RedditStageConsistent(req: Request, source: string, g: Gathering, w: World)
    requires Consistent(g, w) && RedditStage(req, source, g, w).Continue?
    ensures Consistent(RedditStage(req, source, g, w).g, w)
  {
    if WantsReddit(source) {
      var given := OrElse(req.subreddits, []);
      FlattenSnoc(g.ran, RedditRun(if given == [] then DefaultSubreddits else given), w);
    }
  }

  lemma ReviewsStageConsistent(req: Request, source: string, g: Gathering, w: World)
    requires Consistent(g, w) && ReviewsStage(req, source, g, w).Continue?
    ensures Consistent(ReviewsStage(req, source, g, w).g, w)
  {
    if WantsReviews(source) {
      FlattenSnoc(g.ran, ReviewsRun(OrElse(req.appName, ""), OrElse(req.platform, "android")), w);
    }
  }

  /**
   * A 200 reply counts exactly the records of the harvesters that ran, taken in run order, and
   * its ideas are made from those records.
   */
  lemma RawCountIsGathered(req: Request, w: World)
    requires Handle(Some(req), w).reply.Ok?
    ensures var out := Handle(Some(req), w);
      var collected := Flatten(Outputs(out.ran, w));
      out.reply.value == Response(|collected|, Ideas.Generate(collected, w.llm))
  {
    var source := OrElse(req.source, "all");
    var g0 := HnStage(source, w);
    HnStageConsistent(source, w);
    var g1 := RedditStage(req, source, g0, w).g;
    RedditStageConsistent(req, source, g0, w);
    ReviewsStageConsistent(req, source, g1, w);
  }

  /** An app that is found but yields no usable reviews is answered with no records, not with 404. */
  lemma FoundWithoutReviews(req: Request, w: World)
    requires OrElse(req.source, "all") == "reviews" && Strip(OrElse(req.appName, "")) != []
    requires Reviews.Harvest(OrElse(req.appName, ""), OrElse(req.platform, "android"), w.stores) == Some([])
    ensures Handle(Some(req), w).reply == Ok(Response(0, []))
  {
  }
}
