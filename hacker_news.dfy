/**
 * The Hacker News harvester (`scrape_hn_opportunities`): validate the listing URL, take the first
 * `limit` story ids, validate each item URL, fetch the safe ones as one batch, and keep the
 * stories whose title or text mentions one of a fixed set of need-signalling phrases.
 */
module HackerNews {
  import opened Wrappers
  import opened Text
  import opened Records
  import opened Scan
  import opened Security

  const ListingUrl := "https://hacker-news.firebaseio.com/v0/askstories.json"
  const DefaultLimit: nat := 20
  const Keywords: seq<string> := ["how to", "alternative", "wish", "sucks", "problem", "hard to"]
  const SnippetLength: nat := 200

  function ItemUrl(storyId: string): string
  {
    "https://hacker-news.firebaseio.com/v0/item/" + storyId + ".json"
  }

  /** A story body read with `story.get(field, '') or ''`; `id` is `str(story.get('id'))`. */
  datatype Story = Story(id: string, title: string, text: string)

  /**
   * One slot of the concurrent batch: the fetch raised, or a reply with a status and the story
   * read from its body (None when reading the body raises: not JSON, not an object, or a title or
   * text that is not a string).
   */
  datatype Fetch = FetchRaised | Reply(status: int, story: Option<Story>)

  /** `any(k in title.lower() or k in text.lower() for k in keywords)`. */
  predicate SignalsNeed(s: Story)
  {
    exists i :: 0 <= i < |Keywords| && (Contains(Lower(s.title), Keywords[i]) || Contains(Lower(s.text), Keywords[i]))
  }

  function StoryRecord(s: Story): Record
  {
    Record(s.id, "[HN] " + s.title + " - " + Take(s.text, SnippetLength),
           "https://news.ycombinator.com/item?id=" + s.id, "Hacker News")
  }

  /** What the result loop does with one slot: a raised fetch or a non-200 status is skipped alone. */
  function FetchStep(f: Fetch): Step<Record>
  {
    match f
    case FetchRaised => Skip
    case Reply(status, story) =>
      if status != 200 then Skip
      else match story
        case None => Raise
        case Some(s) => if SignalsNeed(s) then Keep(StoryRecord(s)) else Skip
  }

  /** The loop step over scheduled positions, reading the slot fetched for each position. */
  function SlotStep(fetch: nat -> Fetch): nat -> Step<Record>
  {
    (j: nat) => FetchStep(fetch(j))
  }

  /**
   * Positions among the first `n` ids whose item URL passes the gate; the listing URL is the
   * harvest's check number 0, so the id at position `j` is check number `j + 1`.
   */
  function Scheduled(net: Net, ids: seq<string>, n: nat): (tasks: seq<nat>)
    requires n <= |ids|
  {
    if n == 0 then []
    else Scheduled(net, ids, n - 1) + (if SafeAt(net, n, ItemUrl(ids[n - 1])) then [n - 1] else [])
  }

  /**
   * The harvest: `listing` is the id list read from the listing reply (None when the request or
   * reading it raises) and `fetch(j)` the outcome of the detail request for the `j`-th id. A
   * body that cannot be read ends the whole harvest in the outer handler, which returns `[]`.
   */
  function Harvest(net: Net, listing: Option<seq<string>>, limit: nat, fetch: nat -> Fetch): seq<Record>
  {
    if !SafeAt(net, 0, ListingUrl) then []
    else match listing
      case None => []
      case Some(all) =>
        var ids := Take(all, limit);
        var p := Over(Scheduled(net, ids, |ids|), SlotStep(fetch));
        if p.raised then [] else p.out
  }

  /** `scrape_hn_opportunities`: the scheduling loop, then the result loop. */
  method ScrapeHn(net: Net, listing: Option<seq<string>>, limit: nat, fetch: nat -> Fetch)
    returns (opportunities: seq<Record>)
    ensures opportunities == Harvest(net, listing, limit, fetch)
  {
    var listingSafe := IsSafeUrl(net.parse(ListingUrl), net.dns(0), net.classify);
    if !listingSafe || listing.None? {
      return [];
    }
    var storyIds := Take(listing.value, limit);
    var tasks := ScheduleItems(net, storyIds);
    var aborted;
    opportunities, aborted := CollectResults(tasks, fetch);
    if aborted {
      return [];
    }
  }

  /** The scheduling loop: the positions whose item URL passes the gate, in order. */
  method ScheduleItems(net: Net, storyIds: seq<string>) returns (tasks: seq<nat>)
    ensures tasks == Scheduled(net, storyIds, |storyIds|)
  {
    tasks := [];
    for j := 0 to |storyIds|
      invariant tasks == Scheduled(net, storyIds, j)
    {
      var itemSafe := IsSafeUrl(net.parse(ItemUrl(storyIds[j])), net.dns(j + 1), net.classify);
      if itemSafe {
        tasks := tasks + [j];
      }
    }
  }

  /**
   * The result loop over the scheduled positions, until a body cannot be read (which the
   * caller's outer handler turns into an empty harvest).
   */
  method CollectResults(tasks: seq<nat>, fetch: nat -> Fetch) returns (opportunities: seq<Record>, aborted: bool)
    ensures Over(tasks, SlotStep(fetch)) == Pass(opportunities, aborted)
  {
    opportunities := [];
    for t := 0 to |tasks|
      invariant Run(tasks, SlotStep(fetch), t) == Pass(opportunities, false)
    {
      var r := fetch(tasks[t]);
      if r.FetchRaised? || r.status != 200 {
        RunSkip(tasks, SlotStep(fetch), t);
        continue;
      }
      if r.story.None? {
        RaiseEndsWalk(tasks, SlotStep(fetch), t);
        return opportunities, true;
      }
      var story := r.story.value;
      if SignalsNeed(story) {
        RunKeep(tasks, SlotStep(fetch), t, StoryRecord(story));
        opportunities := opportunities + [StoryRecord(story)];
      } else {
        RunSkip(tasks, SlotStep(fetch), t);
      }
    }
    return opportunities, false;
  }

  /** A position is scheduled exactly when it is in range and its item URL passes its check. */
  lemma {:induction false} ScheduledIff(net: Net, ids: seq<string>, n: nat, j: nat)
    requires n <= |ids|
    ensures j in Scheduled(net, ids, n) <==> j < n && SafeAt(net, j + 1, ItemUrl(ids[j]))
  {
    if n > 0 {
      ScheduledIff(net, ids, n - 1, j);
      var safe := SafeAt(net, n, ItemUrl(ids[n - 1]));
      var tail: seq<nat> := if safe then [n - 1] else [];
      assert Scheduled(net, ids, n) == Scheduled(net, ids, n - 1) + tail;
      assert j in tail <==> j == n - 1 && safe;
    }
  }

  /**
   * Every emitted record comes from a story whose listing URL and item URL both passed the gate,
   * whose detail reply had status 200, and which mentions a keyword.
   */
  lemma HarvestProvenance(net: Net, all: seq<string>, limit: nat, fetch: nat -> Fetch, r: Record)
    requires r in Harvest(net, Some(all), limit, fetch)
    ensures SafeAt(net, 0, ListingUrl)
    ensures exists j: nat, s :: && j < |all| && j < limit && SafeAt(net, j + 1, ItemUrl(all[j]))
                           && fetch(j) == Reply(200, Some(s)) && SignalsNeed(s) && r == StoryRecord(s)
  {
    var ids := Take(all, limit);
    var tasks := Scheduled(net, ids, |ids|);
    RunProvenance(tasks, SlotStep(fetch), |tasks|, r);
    var k :| 0 <= k < |tasks| && SlotStep(fetch)(tasks[k]) == Keep(r);
    var j := tasks[k];
    ScheduledIff(net, ids, |ids|, j);
    assert ids[j] == all[j];
    var s := fetch(j).story.value;
    assert && j < |all| && j < limit && SafeAt(net, j + 1, ItemUrl(all[j]))
           && fetch(j) == Reply(200, Some(s)) && SignalsNeed(s) && r == StoryRecord(s);
  }

  /**
   * Failures are isolated: unless some scheduled reply has an unreadable body, every scheduled
   * story with status 200 that mentions a keyword is emitted, whatever the other slots did.
   */
  lemma HarvestCompleteness(net: Net, all: seq<string>, limit: nat, fetch: nat -> Fetch, j: nat, s: Story)
    requires SafeAt(net, 0, ListingUrl)
    requires j < |all| && j < limit && SafeAt(net, j + 1, ItemUrl(all[j]))
    requires fetch(j) == Reply(200, Some(s)) && SignalsNeed(s)
    requires forall i :: 0 <= i < |all| && i < limit && SafeAt(net, i + 1, ItemUrl(all[i])) ==> fetch(i) != Reply(200, None)
    ensures StoryRecord(s) in Harvest(net, Some(all), limit, fetch)
  {
    var ids := Take(all, limit);
    var tasks := Scheduled(net, ids, |ids|);
    ScheduledIff(net, ids, |ids|, j);
    var k :| 0 <= k < |tasks| && tasks[k] == j;
    forall m | 0 <= m < |tasks| ensures SlotStep(fetch)(tasks[m]) != Raise {
      var i := tasks[m];
      ScheduledIff(net, ids, |ids|, i);
      assert ids[i] == all[i];
      assert fetch(i) != Reply(200, None);
    }
    RunRaisedIff(tasks, SlotStep(fetch), |tasks|);
    RunCompleteness(tasks, SlotStep(fetch), |tasks|, k);
  }

  /** One scheduled reply with status 200 and an unreadable body empties the whole harvest. */
  lemma UnreadableBodyEmptiesHarvest(net: Net, all: seq<string>, limit: nat, fetch: nat -> Fetch, j: nat)
    requires j < |all| && j < limit && SafeAt(net, j + 1, ItemUrl(all[j]))
    requires fetch(j) == Reply(200, None)
    ensures Harvest(net, Some(all), limit, fetch) == []
  {
    var ids := Take(all, limit);
    var tasks := Scheduled(net, ids, |ids|);
    ScheduledIff(net, ids, |ids|, j);
    var k :| 0 <= k < |tasks| && tasks[k] == j;
    RunRaisedIff(tasks, SlotStep(fetch), |tasks|);
  }
}
