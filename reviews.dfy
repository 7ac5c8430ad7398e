/**
 * The app-review harvester: find the app in Google Play or the App Store (`find_app`, with the
 * Play search page scanned for its first app id as `search_google_play_manual` does), then
 * collect its reviews, dropping the short ones (`scrape_reviews`).
 */
module Reviews {
  import opened Wrappers
  import opened Text
  import opened Records
  import opened Scan

  // ---------------------------------------------------------------------------------------------
  // The app id in a Play search page: `re.search(r'details\?id=([a-zA-Z0-9_.]+)', text)`.

  const Marker := "details?id="

  predicate IdChar(c: char)
  {
    ('a' <= c <= 'z') || ('A' <= c <= 'Z') || ('0' <= c <= '9') || c == '_' || c == '.'
  }

  /** The longest prefix of `s` made of id characters (what the greedy `+` takes). */
  function IdRun(s: string): (r: string)
    ensures r <= s
    ensures forall k :: 0 <= k < |r| ==> IdChar(r[k])
    ensures |r| == |s| || !IdChar(s[|r|])
  {
    if s != [] && IdChar(s[0]) then [s[0]] + IdRun(s[1..]) else []
  }

  /** The pattern matches at position `i`: the marker, then at least one id character. */
  predicate MatchAt(s: string, i: nat)
  {
    i + |Marker| < |s| && s[i..i + |Marker|] == Marker && IdChar(s[i + |Marker|])
  }

  /** The leftmost match at or after position `i`, as its captured group. */
  function ScanFrom(s: string, i: nat): Option<string>
    decreases |s| - i
  {
    if i + |Marker| >= |s| then None
    else if MatchAt(s, i) then Some(IdRun(s[i + |Marker|..]))
    else ScanFrom(s, i + 1)
  }

  function FindPlayId(text: string): Option<string>
  {
    ScanFrom(text, 0)
  }

  /** The scan from `i` finds nothing exactly when no position from `i` on matches. */
  lemma {:induction false} ScanFromNone(s: string, i: nat)
    ensures ScanFrom(s, i).None? <==> forall j: nat :: i <= j ==> !MatchAt(s, j)
    decreases |s| - i
  {
    if i + |Marker| < |s| && !MatchAt(s, i) {
      ScanFromNone(s, i + 1);
    }
  }

  /** Positions without a match are passed over: the scan from `i` is the scan from `j`. */
  lemma {:induction false} ScanFromSkip(s: string, i: nat, j: nat)
    requires i <= j && forall k: nat :: i <= k < j ==> !MatchAt(s, k)
    ensures ScanFrom(s, i) == ScanFrom(s, j)
    decreases j - i
  {
    if i < j && i + |Marker| < |s| {
      assert !MatchAt(s, i);
      ScanFromSkip(s, i + 1, j);
    }
  }

  /** A scan from `i` that finds an id returns the maximal id run after the leftmost match. */
  lemma {:induction false} ScanFromSome(s: string, i: nat)
    requires ScanFrom(s, i).Some?
    ensures exists j: nat :: && i <= j && MatchAt(s, j) && (forall k: nat :: i <= k < j ==> !MatchAt(s, k))
                             && ScanFrom(s, i).value == IdRun(s[j + |Marker|..])
    decreases |s| - i
  {
    if !MatchAt(s, i) {
      ScanFromSome(s, i + 1);
      var j: nat :| && i + 1 <= j && MatchAt(s, j) && (forall k: nat :: i + 1 <= k < j ==> !MatchAt(s, k))
                    && ScanFrom(s, i + 1).value == IdRun(s[j + |Marker|..]);
      assert forall k: nat :: i <= k < j ==> !MatchAt(s, k);
    }
  }

  /**
   * `search_google_play_manual` finds an id exactly when the pattern occurs; the id is the
   * non-empty maximal run of id characters after the leftmost occurrence of `details?id=`.
   */
  lemma FindPlayIdSpec(text: string)
    ensures FindPlayId(text).None? <==> forall j: nat :: !MatchAt(text, j)
    ensures FindPlayId(text).Some? ==>
      exists j: nat :: && MatchAt(text, j) && (forall k: nat :: k < j ==> !MatchAt(text, k))
                       && FindPlayId(text).value == IdRun(text[j + |Marker|..])
                       && |FindPlayId(text).value| > 0
  {
    ScanFromNone(text, 0);
    if FindPlayId(text).Some? {
      ScanFromSome(text, 0);
      var j: nat :| MatchAt(text, j) && (forall k: nat :: k < j ==> !MatchAt(text, k))
                    && FindPlayId(text).value == IdRun(text[j + |Marker|..]);
      assert text[j + |Marker|..][0] == text[j + |Marker|];
    }
  }

  /** The id ends at the first character outside the class. */
  lemma PlayIdStopsAtQuote()
    ensures FindPlayId("details?id=a.b\"") == Some("a.b")
  {
    var s := "details?id=a.b\"";
    assert s[0..|Marker|] == Marker;
    assert MatchAt(s, 0);
    var rest := s[|Marker|..];
    assert rest == "a.b\"";
    assert rest[3..] == "\"" && IdRun(rest[3..]) == [];
    assert rest[2..][1..] == rest[3..];
    assert rest[1..][1..] == rest[2..];
    assert rest[1..] == ".b\"";
    assert IdRun(rest[2..]) == "b";
    assert IdRun(rest[1..]) == ".b";
    assert IdRun(rest) == "a.b";
  }

  /** A marker with no id character after it does not match; the scan moves on to the next one. */
  lemma PlayIdSkipsEmptyMarker()
    ensures FindPlayId("details?id=-details?id=x") == Some("x")
  {
    var s := "details?id=-details?id=x";
    EmptyMarkerDoesNotMatch();
    ScanFromSkip(s, 0, 12);
    assert s[12..12 + |Marker|] == Marker;
    assert MatchAt(s, 12);
    assert s[12 + |Marker|..] == "x";
    assert IdRun("x") == "x" by { assert "x"[1..] == []; }
  }

  /** In the example above no position before the second marker matches. */
  lemma EmptyMarkerDoesNotMatch()
    ensures forall k: nat :: k < 12 ==> !MatchAt("details?id=-details?id=x", k)
  {
    var s := "details?id=-details?id=x";
    assert !MatchAt(s, 0) by { assert s[|Marker|] == '-'; }
    forall i: nat | 1 <= i < 12 ensures !MatchAt(s, i) {
      var w := s[i..i + |Marker|];
      assert w[0] == s[i] && w[1] == s[i + 1];
      assert s[i] != 'd' || s[i + 1] != 'e';
    }
  }

  // ---------------------------------------------------------------------------------------------
  // Finding the app.

  datatype Platform = Android | Ios

  /** The dict `find_app` returns. */
  datatype AppInfo = AppInfo(platform: Platform, id: string, title: string, url: string)

  /** The Play search request: it raised, or a reply with its status and page text. */
  datatype Page = PageRaised | Page(status: int, text: string)

  /** The first result of an iTunes search, with `trackId` as the text it formats to. */
  datatype IosApp = IosApp(trackId: string, trackName: string, trackViewUrl: string)

  /**
   * The iTunes search: the request or reading its body raised, or `resultCount` and the first
   * result (None when `results[0]` or one of its three fields raises).
   */
  datatype IosSearch = SearchFailed | Found(resultCount: int, first: Option<IosApp>)

  /** What an Android review reads as: `content` None when it is present but not a string. */
  datatype PlayReview = PlayReview(reviewId: string, content: Option<string>)

  /** The `label` fields of one iOS feed entry, with `''` and `'?'` for the missing ones. */
  datatype IosLabels = IosLabels(id: string, title: string, content: string, rating: string)

  /** One feed entry: whether it has an `author` key, and its labels (None when a lookup raises). */
  datatype IosEntry = IosEntry(hasAuthor: bool, labels: Option<IosLabels>)

  /**
   * The stores, as functions of what is asked of them: the Play search page for a name, the
   * title of an app's Play details (None when `play_app` raises or has no title), its reviews
   * (None when `play_reviews` raises), the iTunes search for a name, and an app's review feed
   * entries (None when the request or reading its body raises).
   */
  datatype Stores = Stores(playSearch: string -> Page, playTitle: string -> Option<string>,
                           playReviews: string -> Option<seq<PlayReview>>,
                           iosSearch: string -> IosSearch, iosFeed: string -> Option<seq<IosEntry>>)

  function PlayAppUrl(id: string): string
  {
    "https://play.google.com/store/apps/details?id=" + id
  }

  /** `search_google_play_manual(name)`. */
  function SearchPlay(page: Page): Option<string>
  {
    if page.PageRaised? || page.status != 200 then None else FindPlayId(page.text)
  }

  /** `try_android`: the first app id of the search page, titled from its details or by the name. */
  function TryAndroid(name: string, stores: Stores): Option<AppInfo>
  {
    match SearchPlay(stores.playSearch(name))
    case None => None
    case Some(id) =>
      var title := match stores.playTitle(id) case Some(t) => t case None => name;
      Some(AppInfo(Android, id, title, PlayAppUrl(id)))
  }

  /** `try_ios`: the first search result, when the search reports at least one. */
  function TryIos(name: string, stores: Stores): Option<AppInfo>
  {
    match stores.iosSearch(name)
    case SearchFailed => None
    case Found(count, first) =>
      if count <= 0 || first.None? then None
      else Some(AppInfo(Ios, first.value.trackId, first.value.trackName, first.value.trackViewUrl))
  }

  /** `find_app`: the App Store for the preference `"ios"`, Google Play for anything else. */
  function FindApp(name: string, preference: string, stores: Stores): Option<AppInfo>
  {
    if preference == "ios" then TryIos(name, stores) else TryAndroid(name, stores)
  }

  /**
   * Routing: the preference `"ios"` only ever yields an App Store app, any other preference only a
   * Google Play app, whose id is the one the search page shows and whose URL is its details page.
   */
  lemma FindAppRouting(name: string, preference: string, stores: Stores)
    ensures var app := FindApp(name, preference, stores);
      app.Some? ==> (app.value.platform == Ios <==> preference == "ios")
    ensures preference != "ios" ==>
      match FindApp(name, preference, stores)
      case None => SearchPlay(stores.playSearch(name)).None?
      case Some(app) => && SearchPlay(stores.playSearch(name)) == Some(app.id)
                        && app.url == PlayAppUrl(app.id)
                        && app.title == (if stores.playTitle(app.id).Some? then stores.playTitle(app.id).value else name)
    ensures preference == "ios" ==>
      (FindApp(name, preference, stores).Some? <==>
         stores.iosSearch(name).Found? && stores.iosSearch(name).resultCount > 0 && stores.iosSearch(name).first.Some?)
  {
  }

  // ---------------------------------------------------------------------------------------------
  // Collecting the reviews.

  const MinReviewLength: nat := 10
  const ReviewSnippet: nat := 300

  /** The Android loop step: keep reviews longer than ten characters; a non-string content raises. */
  function AndroidStep(app: AppInfo, r: PlayReview): Step<Record>
  {
    match r.content
    case None => Raise
    case Some(c) =>
      if |c| > MinReviewLength
      then Keep(Record(r.reviewId, "[Android Review] " + Take(c, ReviewSnippet), app.url, "Google Play (" + app.title + ")"))
      else Skip
  }

  function AndroidSteps(app: AppInfo): PlayReview -> Step<Record>
  {
    r => AndroidStep(app, r)
  }

  /** `title - content`, the text an iOS review is judged and quoted by. */
  function FullText(l: IosLabels): string
  {
    l.title + " - " + l.content
  }

  /** The iOS loop step: skip entries without an author, keep reviews longer than ten characters. */
  function IosStep(app: AppInfo, e: IosEntry): Step<Record>
  {
    if !e.hasAuthor then Skip
    else match e.labels
      case None => Raise
      case Some(l) =>
        if |FullText(l)| > MinReviewLength
        then Keep(Record(l.id, "[iOS Review " + l.rating + "/5] " + Take(FullText(l), ReviewSnippet),
                         app.url, "App Store (" + app.title + ")"))
        else Skip
  }

  function IosSteps(app: AppInfo): IosEntry -> Step<Record>
  {
    e => IosStep(app, e)
  }

  /**
   * `scrape_reviews(name, preference)`: None when the app is not found; otherwise the reviews
   * appended before the loop ended or raised (a raise is caught and the list so far returned).
   */
  function Harvest(name: string, preference: string, stores: Stores): Option<seq<Record>>
  {
    match FindApp(name, preference, stores)
    case None => None
    case Some(app) =>
      if app.platform == Android then
        match stores.playReviews(app.id)
        case None => Some([])
        case Some(rs) => Some(Over(rs, AndroidSteps(app)).out)
      else
        match stores.iosFeed(app.id)
        case None => Some([])
        case Some(es) => Some(Over(es, IosSteps(app)).out)
  }

  /** `scrape_reviews`: find the app, then the review loop of its platform. */
  method ScrapeReviews(name: string, preference: string, stores: Stores) returns (result: Option<seq<Record>>)
    ensures result == Harvest(name, preference, stores)
  {
    var found := FindApp(name, preference, stores);
    if found.None? {
      return None;
    }
    var app := found.value;
    var opportunities: seq<Record> := [];
    if app.platform == Android {
      var fetched := stores.playReviews(app.id);
      if fetched.Some? {
        var rs := fetched.value;
        for k := 0 to |rs|
          invariant Run(rs, AndroidSteps(app), k) == Pass(opportunities, false)
        {
          var review := rs[k];
          if review.content.None? {
            RaiseEndsWalk(rs, AndroidSteps(app), k);
            return Some(opportunities);
          }
          var content := review.content.value;
          if |content| > MinReviewLength {
            opportunities := opportunities + [Record(review.reviewId, "[Android Review] " + Take(content, ReviewSnippet),
                                                     app.url, "Google Play (" + app.title + ")")];
          }
        }
      }
    } else {
      var fetched := stores.iosFeed(app.id);
      if fetched.Some? {
        var es := fetched.value;
        for k := 0 to |es|
          invariant Run(es, IosSteps(app), k) == Pass(opportunities, false)
        {
          var entry := es[k];
          if !entry.hasAuthor {
            continue;
          }
          if entry.labels.None? {
            RaiseEndsWalk(es, IosSteps(app), k);
            return Some(opportunities);
          }
          var labels := entry.labels.value;
          var fullText := labels.title + " - " + labels.content;
          if |fullText| > MinReviewLength {
            opportunities := opportunities + [Record(labels.id, "[iOS Review " + labels.rating + "/5] " + Take(fullText, ReviewSnippet),
                                                     app.url, "App Store (" + app.title + ")")];
          }
        }
      }
    }
    return Some(opportunities);
  }

  /** "Not found" (404) and "found, no usable reviews" are told apart: None exactly when no app is found. */
  lemma NotFoundIff(name: string, preference: string, stores: Stores)
    ensures Harvest(name, preference, stores).None? <==> FindApp(name, preference, stores).None?
  {
  }

  /**
   * Every Android review record quotes a review of the app longer than ten characters, cut to 300,
   * and carries the app's URL and title.
   */
  lemma AndroidProvenance(name: string, preference: string, stores: Stores, r: Record)
    requires preference != "ios"
    requires Harvest(name, preference, stores).Some? && r in Harvest(name, preference, stores).value
    ensures var app := FindApp(name, preference, stores).value;
      exists k, c :: && 0 <= k < |stores.playReviews(app.id).value|
                     && stores.playReviews(app.id).value[k] == PlayReview(r.id, Some(c))
                     && |c| > MinReviewLength
                     && r == Record(r.id, "[Android Review] " + Take(c, ReviewSnippet), app.url, "Google Play (" + app.title + ")")
  {
    var app := FindApp(name, preference, stores).value;
    FindAppRouting(name, preference, stores);
    var rs := stores.playReviews(app.id).value;
    RunProvenance(rs, AndroidSteps(app), |rs|, r);
    var k :| 0 <= k < |rs| && AndroidStep(app, rs[k]) == Keep(r);
    var c := rs[k].content.value;
    assert rs[k] == PlayReview(r.id, Some(c));
  }

  /**
   * Every iOS review record comes from an entry with an author whose `title - content` is longer
   * than ten characters, and quotes it with its rating.
   */
  lemma IosProvenance(name: string, stores: Stores, r: Record)
    requires Harvest(name, "ios", stores).Some? && r in Harvest(name, "ios", stores).value
    ensures var app := FindApp(name, "ios", stores).value;
      exists k, l :: && 0 <= k < |stores.iosFeed(app.id).value|
                     && stores.iosFeed(app.id).value[k] == IosEntry(true, Some(l))
                     && |FullText(l)| > MinReviewLength
                     && r == Record(l.id, "[iOS Review " + l.rating + "/5] " + Take(FullText(l), ReviewSnippet),
                                    app.url, "App Store (" + app.title + ")")
  {
    var app := FindApp(name, "ios", stores).value;
    FindAppRouting(name, "ios", stores);
    var es := stores.iosFeed(app.id).value;
    RunProvenance(es, IosSteps(app), |es|, r);
    var k :| 0 <= k < |es| && IosStep(app, es[k]) == Keep(r);
    var l := es[k].labels.value;
    assert es[k] == IosEntry(true, Some(l));
  }

  /**
   * Unless the content of an earlier review is not a string, every Android review longer than ten
   * characters is kept; a bad review after it ends the loop but keeps what was appended.
   */
  lemma AndroidCompleteness(app: AppInfo, rs: seq<PlayReview>, k: nat)
    requires k < |rs| && rs[k].content.Some? && |rs[k].content.value| > MinReviewLength
    requires forall m :: 0 <= m < k ==> rs[m].content.Some?
    ensures AndroidStep(app, rs[k]).item in Over(rs, AndroidSteps(app)).out
  {
    forall m | 0 <= m < k ensures AndroidSteps(app)(rs[m]) != Raise {
      assert rs[m].content.Some?;
    }
    RunKeptBeforeRaise(rs, AndroidSteps(app), k);
  }

  /**
   * Unless an earlier entry with an author has unreadable labels, every iOS entry with an author
   * whose `title - content` is longer than ten characters is kept.
   */
  lemma IosCompleteness(app: AppInfo, es: seq<IosEntry>, k: nat)
    requires k < |es| && es[k].hasAuthor && es[k].labels.Some? && |FullText(es[k].labels.value)| > MinReviewLength
    requires forall m :: 0 <= m < k ==> !es[m].hasAuthor || es[m].labels.Some?
    ensures IosStep(app, es[k]).item in Over(es, IosSteps(app)).out
  {
    forall m | 0 <= m < k ensures IosSteps(app)(es[m]) != Raise {
      assert !es[m].hasAuthor || es[m].labels.Some?;
    }
    RunKeptBeforeRaise(es, IosSteps(app), k);
  }

  /** A review with non-string content ends the Android loop: nothing after it is kept. */
  lemma AndroidStopsAtBadReview(app: AppInfo, rs: seq<PlayReview>, k: nat)
    requires k < |rs| && rs[k].content.None?
    requires forall m :: 0 <= m < k ==> rs[m].content.Some?
    ensures Over(rs, AndroidSteps(app)).out == Run(rs, AndroidSteps(app), k).out
  {
    RunStopsAtRaise(rs, AndroidSteps(app), k, |rs|);
  }
}
