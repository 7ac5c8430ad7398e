/**
 * The Reddit harvester (`scrape_reddit_rss`): subreddits one after another; for each, validate
 * the listing URL, then up to three attempts with a backoff sleep between attempts, stopping at
 * the first attempt that reads its posts through. Posts that are stickied or have a title shorter
 * than ten characters are dropped.
 */
module Reddit {
  import opened Wrappers
  import opened Text
  import opened Records
  import opened Scan
  import opened Security

  const Attempts: nat := 3
  const MinTitleLength: nat := 10
  const SnippetLength: nat := 200

  function ListingUrl(sub: string): string
  {
    "https://www.reddit.com/r/" + sub + "/hot.json?limit=25"
  }

  /**
   * One entry of `data.children`, as its `data` object reads: a title or selftext of None is
   * present but not a string, so `len()` or slicing it raises.
   */
  datatype Post = Post(id: string, stickied: bool, title: Option<string>, selftext: Option<string>, permalink: string)

  /**
   * One attempt: `requests.get` raised, or a reply with its status and the post list read from
   * its body (None when `resp.json()` or the `data`/`children` lookups raise).
   */
  datatype Reply = Raised | Answered(status: int, posts: Option<seq<Post>>)

  /** The side effects that matter: a request issued, and a backoff sleep. */
  datatype Event = Request(sub: nat, attempt: nat) | Backoff(sub: nat, attempt: nat)

  /** Records appended and events, in the order they happen. */
  datatype Trace = Trace(records: seq<Record>, log: seq<Event>)
  {
    function Then(t: Trace): Trace
    {
      Trace(records + t.records, log + t.log)
    }
  }

  function PostRecord(sub: string, p: Post, title: string, body: string): Record
  {
    Record(p.id, "[Reddit r/" + sub + "] " + title + " - " + Take(body, SnippetLength),
           "https://reddit.com" + p.permalink, "Reddit r/" + sub)
  }

  /** What the post loop does with one post of the subreddit named `sub`. */
  function PostStep(sub: string, p: Post): Step<Record>
  {
    if p.stickied then Skip
    else match p.title
      case None => Raise
      case Some(t) =>
        if |t| < MinTitleLength then Skip
        else match p.selftext
          case None => Raise
          case Some(body) => Keep(PostRecord(sub, p, t, body))
  }

  function PostSteps(sub: string): Post -> Step<Record>
  {
    p => PostStep(sub, p)
  }

  /** Records one attempt appends, and whether it succeeded (status 200 and every post read). */
  datatype Outcome = Outcome(batch: seq<Record>, succeeded: bool)

  function Attempt(sub: string, reply: Reply): Outcome
  {
    match reply
    case Raised => Outcome([], false)
    case Answered(status, posts) =>
      if status != 200 || posts.None? then Outcome([], false)
      else
        var p := Over(posts.value, PostSteps(sub));
        Outcome(p.out, !p.raised)
  }

  /** The retry loop of subreddit number `i` after `a` attempts. */
  datatype SubRun = SubRun(trace: Trace, succeeded: bool)

  function Retry(i: nat, sub: string, replies: (nat, nat) -> Reply, a: nat): SubRun
    requires a <= Attempts
  {
    if a == 0 then SubRun(Trace([], []), false)
    else
      var prev := Retry(i, sub, replies, a - 1);
      if prev.succeeded then prev
      else
        var o := Attempt(sub, replies(i, a));
        var sleep := if !o.succeeded && a < Attempts then [Backoff(i, a)] else [];
        SubRun(prev.trace.Then(Trace(o.batch, [Request(i, a)] + sleep)), o.succeeded)
  }

  /** Everything subreddit number `i` contributes; its listing URL is the harvest's check number `i`. */
  function SubOutcome(net: Net, i: nat, sub: string, replies: (nat, nat) -> Reply): SubRun
  {
    var clean := Strip(sub);
    if !SafeAt(net, i, ListingUrl(clean)) then SubRun(Trace([], []), false)
    else Retry(i, clean, replies, Attempts)
  }

  /** What each subreddit of the list contributes, by position. */
  function Contributions(net: Net, subs: seq<string>, replies: (nat, nat) -> Reply): (cs: seq<SubRun>)
    ensures |cs| == |subs|
    ensures forall i :: 0 <= i < |subs| ==> cs[i] == SubOutcome(net, i, subs[i], replies)
  {
    seq(|subs|, i requires 0 <= i < |subs| => SubOutcome(net, i, subs[i], replies))
  }

  /** The contributions `lo` to `hi - 1`, one after another. */
  function Concat(runs: seq<SubRun>, lo: nat, hi: nat): Trace
    requires lo <= hi <= |runs|
    decreases hi
  {
    if hi == lo then Trace([], []) else Concat(runs, lo, hi - 1).Then(runs[hi - 1].trace)
  }

  /** `scrape_reddit_rss(subs)`, with `replies(i, a)` the outcome of attempt `a` for subreddit `i`. */
  function Harvest(net: Net, subs: seq<string>, replies: (nat, nat) -> Reply): Trace
  {
    Concat(Contributions(net, subs, replies), 0, |subs|)
  }

  /** The post loop of one successful reply, appending to `opportunities` as it goes. */
  method AppendPosts(opportunities: seq<Record>, sub: string, posts: seq<Post>)
    returns (extended: seq<Record>, completed: bool)
    ensures extended == opportunities + Over(posts, PostSteps(sub)).out
    ensures completed == !Over(posts, PostSteps(sub)).raised
  {
    extended := opportunities;
    for k := 0 to |posts|
      invariant extended == opportunities + Run(posts, PostSteps(sub), k).out
      invariant !Run(posts, PostSteps(sub), k).raised
    {
      var post := posts[k];
      if post.stickied {
        continue;
      }
      if post.title.None? {
        RaiseEndsWalk(posts, PostSteps(sub), k);
        return extended, false;
      }
      var title := post.title.value;
      if |title| < MinTitleLength {
        continue;
      }
      if post.selftext.None? {
        RaiseEndsWalk(posts, PostSteps(sub), k);
        return extended, false;
      }
      extended := extended + [PostRecord(sub, post, title, post.selftext.value)];
    }
    return extended, true;
  }

  /** The retry loop of `scrape_reddit_rss` for subreddit number `i`, whose URL passed the gate. */
  method FetchWithRetry(i: nat, cleanSub: string, replies: (nat, nat) -> Reply,
                        opportunities: seq<Record>, ghost log: seq<Event>)
    returns (extended: seq<Record>, ghost log': seq<Event>)
    // The first clause speaks of the compiled records alone; the second adds the ghost log.
    ensures extended == opportunities + Retry(i, cleanSub, replies, Attempts).trace.records
    ensures Trace(extended, log') == Trace(opportunities, log).Then(Retry(i, cleanSub, replies, Attempts).trace)
  {
    extended, log' := opportunities, log;
    for attempt := 1 to Attempts + 1
      invariant Trace(extended, log') == Trace(opportunities, log).Then(Retry(i, cleanSub, replies, attempt - 1).trace)
      invariant !Retry(i, cleanSub, replies, attempt - 1).succeeded
    {
      ghost var before := Trace(extended, log');
      ghost var o := Attempt(cleanSub, replies(i, attempt));
      log' := log' + [Request(i, attempt)];
      var success := false;
      var reply := replies(i, attempt);
      ghost var start := extended;
      if reply.Answered? && reply.status == 200 && reply.posts.Some? {
        extended, success := AppendPosts(extended, cleanSub, reply.posts.value);
      }
      assert extended == start + o.batch && success == o.succeeded;
      RetryStep(i, cleanSub, replies, attempt);
      if success {
        RetryDone(i, cleanSub, replies, attempt, Attempts);
        ThenAssoc(Trace(opportunities, log), Retry(i, cleanSub, replies, attempt - 1).trace, Trace(o.batch, [Request(i, attempt)]));
        assert Trace(extended, log') == before.Then(Trace(o.batch, [Request(i, attempt)]));
        break;
      }
      if attempt < Attempts {
        log' := log' + [Backoff(i, attempt)];
      }
      ghost var sleep := if attempt < Attempts then [Backoff(i, attempt)] else [];
      ThenAssoc(Trace(opportunities, log), Retry(i, cleanSub, replies, attempt - 1).trace, Trace(o.batch, [Request(i, attempt)] + sleep));
      assert Trace(extended, log') == before.Then(Trace(o.batch, [Request(i, attempt)] + sleep));
    }
  }

  /** One more attempt after failed ones, by the definition of the retry loop. */
  lemma RetryStep(i: nat, sub: string, replies: (nat, nat) -> Reply, a: nat)
    requires 1 <= a <= Attempts && !Retry(i, sub, replies, a - 1).succeeded
    ensures var o := Attempt(sub, replies(i, a));
      var sleep := if !o.succeeded && a < Attempts then [Backoff(i, a)] else [];
      Retry(i, sub, replies, a) == SubRun(Retry(i, sub, replies, a - 1).trace.Then(Trace(o.batch, [Request(i, a)] + sleep)), o.succeeded)
  {
  }

  /** `scrape_reddit_rss`: subreddits in list order, each validated before any request. */
  method ScrapeReddit(net: Net, subs: seq<string>, replies: (nat, nat) -> Reply)
    returns (opportunities: seq<Record>, ghost log: seq<Event>)
    // The first clause speaks of the compiled records alone; the second adds the ghost log.
    ensures opportunities == Harvest(net, subs, replies).records
    ensures Trace(opportunities, log) == Harvest(net, subs, replies)
  {
    opportunities, log := [], [];
    for i := 0 to |subs|
      invariant Trace(opportunities, log) == Concat(Contributions(net, subs, replies), 0, i)
    {
      var cleanSub := Strip(subs[i]);
      var jsonUrl := ListingUrl(cleanSub);
      var safe := IsSafeUrl(net.parse(jsonUrl), net.dns(i), net.classify);
      SegmentStep(net, subs, replies, i);
      if !safe {
        continue;
      }
      opportunities, log := FetchWithRetry(i, cleanSub, replies, opportunities, log);
    }
  }

  /** One more subreddit: nothing when its URL is refused, else its retry loop. */
  lemma SegmentStep(net: Net, subs: seq<string>, replies: (nat, nat) -> Reply, i: nat)
    requires i < |subs|
    ensures var clean := Strip(subs[i]); var cs := Contributions(net, subs, replies);
      Concat(cs, 0, i + 1)
      == if SafeAt(net, i, ListingUrl(clean))
         then Concat(cs, 0, i).Then(Retry(i, clean, replies, Attempts).trace)
         else Concat(cs, 0, i)
  {
    var clean := Strip(subs[i]);
    var cs := Contributions(net, subs, replies);
    var t := Concat(cs, 0, i);
    assert Concat(cs, 0, i + 1) == t.Then(cs[i].trace);
    assert cs[i] == SubOutcome(net, i, subs[i], replies);
    if !SafeAt(net, i, ListingUrl(clean)) {
      assert cs[i].trace == Trace([], []);
      assert t.records + [] == t.records && t.log + [] == t.log;
    }
  }

  /** Once an attempt succeeds, later attempts change nothing. */
  lemma {:induction false} RetryDone(i: nat, sub: string, replies: (nat, nat) -> Reply, a: nat, b: nat)
    requires a <= b <= Attempts && Retry(i, sub, replies, a).succeeded
    ensures Retry(i, sub, replies, b) == Retry(i, sub, replies, a)
  {
    if b > a {
      RetryDone(i, sub, replies, a, b - 1);
    }
  }

  /** Requests 1 to `k`, a backoff between each two consecutive ones, and none after the last. */
  function Schedule(i: nat, k: nat): (log: seq<Event>)
    requires k >= 1
    ensures |log| == 2 * k - 1
    ensures forall e :: 0 <= e < |log| ==>
      log[e] == if e % 2 == 0 then Request(i, e / 2 + 1) else Backoff(i, e / 2 + 1)
  {
    if k == 1 then [Request(i, 1)] else Schedule(i, k - 1) + [Backoff(i, k - 1), Request(i, k)]
  }

  /** The attempt the retry loop stops after: the first that succeeds, or the last. */
  function AttemptsMade(i: nat, sub: string, replies: (nat, nat) -> Reply): nat
  {
    if Attempt(sub, replies(i, 1)).succeeded then 1
    else if Attempt(sub, replies(i, 2)).succeeded then 2
    else Attempts
  }

  /** What attempts 1 to `k` append, in order. */
  function Batches(i: nat, sub: string, replies: (nat, nat) -> Reply, k: nat): seq<Record>
  {
    if k == 0 then [] else Batches(i, sub, replies, k - 1) + Attempt(sub, replies(i, k)).batch
  }

  /**
   * The retry loop makes at most three requests, stops after the first attempt that succeeds,
   * sleeps only between two attempts (so at most twice), and keeps what each attempt made
   * appended, in attempt order.
   */
  lemma RetryShape(i: nat, sub: string, replies: (nat, nat) -> Reply)
    ensures var k := AttemptsMade(i, sub, replies);
      && 1 <= k <= Attempts
      && (forall a :: 1 <= a < k ==> !Attempt(sub, replies(i, a)).succeeded)
      && Retry(i, sub, replies, Attempts).trace.log == Schedule(i, k)
      && Retry(i, sub, replies, Attempts).trace.records == Batches(i, sub, replies, k)
      && Retry(i, sub, replies, Attempts).succeeded == Attempt(sub, replies(i, k)).succeeded
  {
    var o1, o2, o3 := Attempt(sub, replies(i, 1)), Attempt(sub, replies(i, 2)), Attempt(sub, replies(i, 3));
    assert Retry(i, sub, replies, 0) == SubRun(Trace([], []), false);
    var r1 := Retry(i, sub, replies, 1);
    assert r1.succeeded == o1.succeeded;
    assert r1.trace.records == o1.batch == Batches(i, sub, replies, 1);
    if o1.succeeded {
      assert r1.trace.log == [Request(i, 1)];
      RetryDone(i, sub, replies, 1, Attempts);
    } else {
      assert r1.trace.log == [Request(i, 1), Backoff(i, 1)];
      var r2 := Retry(i, sub, replies, 2);
      assert r2.succeeded == o2.succeeded;
      assert r2.trace.records == o1.batch + o2.batch == Batches(i, sub, replies, 2);
      if o2.succeeded {
        assert r2.trace.log == [Request(i, 1), Backoff(i, 1), Request(i, 2)] == Schedule(i, 2);
        RetryDone(i, sub, replies, 2, Attempts);
      } else {
        assert r2.trace.log == [Request(i, 1), Backoff(i, 1), Request(i, 2), Backoff(i, 2)];
        var r3 := Retry(i, sub, replies, 3);
        assert r3.trace.log == [Request(i, 1), Backoff(i, 1), Request(i, 2), Backoff(i, 2), Request(i, 3)];
        assert Schedule(i, 3) == Schedule(i, 2) + [Backoff(i, 2), Request(i, 3)];
        assert r3.trace.records == o1.batch + o2.batch + o3.batch == Batches(i, sub, replies, 3);
      }
    }
  }

  /** An attempt that raised, got a status other than 200, or could not read its body fails and appends nothing. */
  predicate FailsOutright(reply: Reply)
  {
    reply.Raised? || reply.status != 200 || reply.posts.None?
  }

  /** Attempts that all fail before reading posts leave the retry loop empty-handed. */
  lemma {:induction false} RetryAllFail(i: nat, sub: string, replies: (nat, nat) -> Reply, a: nat)
    requires a <= Attempts && forall b :: 1 <= b <= a ==> FailsOutright(replies(i, b))
    ensures Retry(i, sub, replies, a).trace.records == [] && !Retry(i, sub, replies, a).succeeded
  {
    if a > 0 {
      RetryAllFail(i, sub, replies, a - 1);
      assert Attempt(sub, replies(i, a)) == Outcome([], false);
    }
  }

  /** A subreddit whose URL is refused, or whose three attempts all fail before reading posts, adds nothing. */
  lemma FailedSubAddsNothing(net: Net, i: nat, sub: string, replies: (nat, nat) -> Reply)
    requires !SafeAt(net, i, ListingUrl(Strip(sub))) || forall a :: 1 <= a <= Attempts ==> FailsOutright(replies(i, a))
    ensures SubOutcome(net, i, sub, replies).trace.records == []
    ensures !SubOutcome(net, i, sub, replies).succeeded
  {
    if SafeAt(net, i, ListingUrl(Strip(sub))) {
      RetryAllFail(i, Strip(sub), replies, Attempts);
    }
  }

  /** Two failed attempts and a third that reads its posts through: the third attempt's records, after three requests. */
  lemma RecoversOnThirdAttempt(net: Net, i: nat, sub: string, replies: (nat, nat) -> Reply, posts: seq<Post>)
    requires SafeAt(net, i, ListingUrl(Strip(sub)))
    requires replies(i, 1).Raised? && replies(i, 2).Answered? && replies(i, 2).status == 429
    requires replies(i, 3) == Answered(200, Some(posts)) && !Over(posts, PostSteps(Strip(sub))).raised
    ensures SubOutcome(net, i, sub, replies).trace.records == Over(posts, PostSteps(Strip(sub))).out
    ensures SubOutcome(net, i, sub, replies).trace.log == [Request(i, 1), Backoff(i, 1), Request(i, 2), Backoff(i, 2), Request(i, 3)]
  {
    var clean := Strip(sub);
    assert SubOutcome(net, i, sub, replies) == Retry(i, clean, replies, Attempts);
    RetryRecovers(i, clean, replies, posts);
  }

  /** The retry loop of `RecoversOnThirdAttempt`, for the stripped name. */
  lemma RetryRecovers(i: nat, clean: string, replies: (nat, nat) -> Reply, posts: seq<Post>)
    requires replies(i, 1).Raised? && replies(i, 2).Answered? && replies(i, 2).status == 429
    requires replies(i, 3) == Answered(200, Some(posts)) && !Over(posts, PostSteps(clean)).raised
    ensures Retry(i, clean, replies, Attempts).trace
         == Trace(Over(posts, PostSteps(clean)).out, [Request(i, 1), Backoff(i, 1), Request(i, 2), Backoff(i, 2), Request(i, 3)])
  {
    RetryAllFail(i, clean, replies, 2);
    var r2 := Retry(i, clean, replies, 2);
    assert r2.trace.log == [Request(i, 1), Backoff(i, 1), Request(i, 2), Backoff(i, 2)] by {
      assert Attempt(clean, replies(i, 1)) == Outcome([], false);
      assert Attempt(clean, replies(i, 2)) == Outcome([], false);
      assert Retry(i, clean, replies, 1).trace.log == [Request(i, 1), Backoff(i, 1)];
    }
    var o3 := Attempt(clean, replies(i, 3));
    assert o3 == Outcome(Over(posts, PostSteps(clean)).out, true);
    assert Retry(i, clean, replies, 3) == SubRun(r2.trace.Then(Trace(o3.batch, [Request(i, 3)])), true);
  }

  /**
   * An attempt whose post loop raises has failed, but what it appended stays: when the next attempt
   * reads the same post through, the post's record appears twice.
   */
  lemma RetryDuplicatesPartialAttempt(i: nat, sub: string, replies: (nat, nat) -> Reply, good: Post, bad: Post)
    requires PostStep(sub, good).Keep? && PostStep(sub, bad) == Raise
    requires replies(i, 1) == Answered(200, Some([good, bad]))
    requires replies(i, 2) == Answered(200, Some([good]))
    ensures var r := PostStep(sub, good).item;
      Retry(i, sub, replies, Attempts).trace == Trace([r, r], [Request(i, 1), Backoff(i, 1), Request(i, 2)])
  {
    var r := PostStep(sub, good).item;
    assert Run([good, bad], PostSteps(sub), 1) == Pass([r], false);
    assert Over([good, bad], PostSteps(sub)) == Pass([r], true);
    assert Over([good], PostSteps(sub)) == Pass([r], false) by {
      assert Run([good], PostSteps(sub), 0) == Pass([], false);
      assert PostSteps(sub)([good][0]) == Keep(r);
    }
    assert Retry(i, sub, replies, 1) == SubRun(Trace([r], [Request(i, 1), Backoff(i, 1)]), false);
    assert Retry(i, sub, replies, 2) == SubRun(Trace([r, r], [Request(i, 1), Backoff(i, 1), Request(i, 2)]), true);
  }

  /** Splitting the subreddit range splits the harvest. */
  lemma {:induction false} ConcatSplit(runs: seq<SubRun>, lo: nat, m: nat, hi: nat)
    requires lo <= m <= hi <= |runs|
    ensures Concat(runs, lo, hi) == Concat(runs, lo, m).Then(Concat(runs, m, hi))
  {
    if hi > m {
      ConcatSplit(runs, lo, m, hi - 1);
    }
  }

  /** Contributions that agree on a range concatenate to the same trace. */
  lemma {:induction false} ConcatFrame(runs1: seq<SubRun>, runs2: seq<SubRun>, lo: nat, hi: nat)
    requires lo <= hi <= |runs1| && hi <= |runs2|
    requires forall i :: lo <= i < hi ==> runs1[i].trace == runs2[i].trace
    ensures Concat(runs1, lo, hi) == Concat(runs2, lo, hi)
  {
    if hi > lo {
      ConcatFrame(runs1, runs2, lo, hi - 1);
    }
  }

  /** The retry loop reads only its own subreddit's replies. */
  lemma {:induction false} RetryFrame(i: nat, sub: string, r1: (nat, nat) -> Reply, r2: (nat, nat) -> Reply, a: nat)
    requires a <= Attempts
    requires forall b :: 1 <= b <= a ==> r1(i, b) == r2(i, b)
    ensures Retry(i, sub, r1, a) == Retry(i, sub, r2, a)
  {
    if a > 0 {
      RetryFrame(i, sub, r1, r2, a - 1);
    }
  }

  /** A subreddit's contribution depends only on its name, its own check and its own replies. */
  lemma SubOutcomeFrame(net1: Net, net2: Net, i: nat, sub: string, r1: (nat, nat) -> Reply, r2: (nat, nat) -> Reply)
    requires net1.parse == net2.parse && net1.classify == net2.classify && net1.dns(i) == net2.dns(i)
    requires forall a :: 1 <= a <= Attempts ==> r1(i, a) == r2(i, a)
    ensures SubOutcome(net1, i, sub, r1) == SubOutcome(net2, i, sub, r2)
  {
    var clean := Strip(sub);
    assert SafeAt(net1, i, ListingUrl(clean)) == SafeAt(net2, i, ListingUrl(clean));
    RetryFrame(i, clean, r1, r2, Attempts);
  }

  /**
   * Per-subreddit isolation: whatever subreddit `j` does (refused, failing, succeeding), the
   * output is the same records of the subreddits before it, then its own, then the same records
   * of the subreddits after it.
   */
  lemma Isolation(net1: Net, net2: Net, subs1: seq<string>, subs2: seq<string>,
                  r1: (nat, nat) -> Reply, r2: (nat, nat) -> Reply, j: nat)
    requires |subs1| == |subs2| && j < |subs1|
    requires net1.parse == net2.parse && net1.classify == net2.classify
    requires forall i :: 0 <= i < |subs1| && i != j ==> subs1[i] == subs2[i] && net1.dns(i) == net2.dns(i)
    requires forall i, a :: 0 <= i < |subs1| && i != j && 1 <= a <= Attempts ==> r1(i, a) == r2(i, a)
    ensures exists before: Trace, after: Trace ::
      && Harvest(net1, subs1, r1) == before.Then(SubOutcome(net1, j, subs1[j], r1).trace).Then(after)
      && Harvest(net2, subs2, r2) == before.Then(SubOutcome(net2, j, subs2[j], r2).trace).Then(after)
  {
    var cs1, cs2 := Contributions(net1, subs1, r1), Contributions(net2, subs2, r2);
    forall i | 0 <= i < |cs1| && i != j ensures cs1[i].trace == cs2[i].trace {
      SubOutcomeFrame(net1, net2, i, subs1[i], r1, r2);
    }
    ConcatIsolation(cs1, cs2, j);
  }

  /** Two runs of contributions that differ only at `j` share what comes before and after it. */
  lemma ConcatIsolation(runs1: seq<SubRun>, runs2: seq<SubRun>, j: nat)
    requires |runs1| == |runs2| && j < |runs1|
    requires forall i :: 0 <= i < |runs1| && i != j ==> runs1[i].trace == runs2[i].trace
    ensures exists before: Trace, after: Trace ::
      && Concat(runs1, 0, |runs1|) == before.Then(runs1[j].trace).Then(after)
      && Concat(runs2, 0, |runs2|) == before.Then(runs2[j].trace).Then(after)
  {
    var n := |runs1|;
    ConcatSplit(runs1, 0, j, n);
    ConcatSplit(runs1, j, j + 1, n);
    ConcatSplit(runs2, 0, j, n);
    ConcatSplit(runs2, j, j + 1, n);
    ConcatFrame(runs1, runs2, 0, j);
    ConcatFrame(runs1, runs2, j + 1, n);
    var before, after := Concat(runs1, 0, j), Concat(runs1, j + 1, n);
    Middle(runs1, j);
    Middle(runs2, j);
    ThenAssoc(before, runs1[j].trace, after);
    ThenAssoc(before, runs2[j].trace, after);
  }

  /** A range of one contribution is that contribution. */
  lemma Middle(runs: seq<SubRun>, j: nat)
    requires j < |runs|
    ensures Concat(runs, j, j + 1) == runs[j].trace
  {
    assert Concat(runs, j, j) == Trace([], []);
    assert [] + runs[j].trace.records == runs[j].trace.records;
    assert [] + runs[j].trace.log == runs[j].trace.log;
  }

  /** Appending traces is associative. */
  lemma ThenAssoc(a: Trace, b: Trace, c: Trace)
    ensures a.Then(b.Then(c)) == a.Then(b).Then(c)
  {
    assert a.records + (b.records + c.records) == a.records + b.records + c.records;
    assert a.log + (b.log + c.log) == a.log + b.log + c.log;
  }

  /** What the post loop keeps: a post that is not stickied, with a title of ten characters or more. */
  lemma KeptPost(sub: string, p: Post, r: Record)
    requires PostStep(sub, p) == Keep(r)
    ensures !p.stickied && p.title.Some? && |p.title.value| >= MinTitleLength && p.selftext.Some?
    ensures r.text == "[Reddit r/" + sub + "] " + p.title.value + " - " + Take(p.selftext.value, SnippetLength)
    ensures r.source == "Reddit r/" + sub && r.url == "https://reddit.com" + p.permalink && r.id == p.id
  {
  }

  /** A record of the retry loop comes from a post of some attempt's status-200 reply. */
  lemma {:induction false} RetryProvenance(i: nat, sub: string, replies: (nat, nat) -> Reply, a: nat, r: Record)
    requires a <= Attempts && r in Retry(i, sub, replies, a).trace.records
    ensures exists b: nat, posts: seq<Post>, k: nat :: 1 <= b <= a && replies(i, b) == Answered(200, Some(posts))
                                                      && k < |posts| && PostStep(sub, posts[k]) == Keep(r)
  {
    var prev := Retry(i, sub, replies, a - 1);
    if r in prev.trace.records {
      RetryProvenance(i, sub, replies, a - 1, r);
    } else {
      var posts := replies(i, a).posts.value;
      RunProvenance(posts, PostSteps(sub), |posts|, r);
    }
  }

  /** A concatenated record comes from one of the contributions. */
  lemma {:induction false} ConcatProvenance(runs: seq<SubRun>, hi: nat, r: Record)
    requires hi <= |runs| && r in Concat(runs, 0, hi).records
    ensures exists i :: 0 <= i < hi && r in runs[i].trace.records
  {
    if r in Concat(runs, 0, hi - 1).records {
      ConcatProvenance(runs, hi - 1, r);
    }
  }

  /**
   * Every record of the harvest comes from a post of a status-200 reply to one of the three
   * attempts of a subreddit whose listing URL passed the gate, and was kept by the post filter.
   */
  lemma HarvestProvenance(net: Net, subs: seq<string>, replies: (nat, nat) -> Reply, r: Record)
    requires r in Harvest(net, subs, replies).records
    ensures exists i, a: nat, posts: seq<Post>, k: nat ::
      && 0 <= i < |subs| && SafeAt(net, i, ListingUrl(Strip(subs[i])))
      && 1 <= a <= Attempts && replies(i, a) == Answered(200, Some(posts))
      && k < |posts| && PostStep(Strip(subs[i]), posts[k]) == Keep(r)
  {
    var cs := Contributions(net, subs, replies);
    ConcatProvenance(cs, |subs|, r);
    var i :| 0 <= i < |subs| && r in cs[i].trace.records;
    assert SafeAt(net, i, ListingUrl(Strip(subs[i])));
    RetryProvenance(i, Strip(subs[i]), replies, Attempts, r);
  }
}
