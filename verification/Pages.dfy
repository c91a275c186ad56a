/** One request after another for as long as the answers name a next page (`collectPages`,
  * packages/connector-sdk/src/request.ts).
  */
module Pages {
  import opened Wrappers
  import opened Counting
  import opened Decimals

  /** An address and its query parameters. */
  datatype Url = Url(place: string, params: map<string, string>)

  function WithParam(url: Url, param: string, value: string): Url {
    url.(params := url.params[param := value])
  }

  datatype Item = Item(n: nat)

  /** What the source answers one request with: a failure, or a body that holds a list of items or not,
    * the cursor it names as text, and the link to the next page.
    */
  datatype Answer = SendFails | Body(items: Option<seq<Item>>, cursor: Option<string>, link: Option<Url>)

  datatype Strategy = ByCursor(param: string) | ByPage(param: string, start: int) | ByLink

  datatype Fault = NotSent | NotAList | SamePageTwice | TooManyPages

  const MAX_REQUEST_PAGES := 100

  /** What the source answers, request by request, as it pleases. */
  type Source = nat -> Answer

  predicate HasItems(a: Answer) {
    a.Body? && a.items.Some? && a.items.value != []
  }

  /** Whether the answer to request `k` leads on to another. */
  predicate LeadsOn(strategy: Strategy, a: Answer) {
    HasItems(a) && (strategy.ByCursor? ==> a.cursor.Some?) && (strategy.ByLink? ==> a.link.Some?)
  }

  /** What request `k` asks for, given that the answers before it led there. */
  function Asked(base: Url, strategy: Strategy, source: Source, k: nat): Url
    requires k > 0 ==> LeadsOn(strategy, source(k - 1))
  {
    match strategy
    case ByCursor(param) => if k == 0 then base else WithParam(base, param, source(k - 1).cursor.value)
    case ByPage(param, start) => WithParam(base, param, ShowInt(start + k))
    case ByLink => if k == 0 then base else source(k - 1).link.value
  }

  function ItemsOf(a: Answer): seq<Item> {
    if a.Body? && a.items.Some? then a.items.value else []
  }

  /** The items of the first `n` answers, in the order of the requests. */
  function Gathered(source: Source, n: nat): seq<Item> {
    if n == 0 then [] else Gathered(source, n - 1) + ItemsOf(source(n - 1))
  }

  /** The first `n` requests were made and answered with more to come, no two alike. */
  ghost predicate Followed(base: Url, strategy: Strategy, source: Source, requests: seq<Url>) {
    && (forall k :: 0 <= k < |requests| - 1 ==> LeadsOn(strategy, source(k)))
    && (forall k :: 0 <= k < |requests| ==> requests[k] == Asked(base, strategy, source, k))
    && NoDup(requests)
  }

  /** What following the pages comes to once `requests` have been made. */
  ghost predicate Ends(base: Url, strategy: Strategy, source: Source, requests: seq<Url>, r: Result<seq<Item>, Fault>)
    requires requests != []
  {
    var n := |requests|;
    var last := source(n - 1);
    match r
    case Ok(items) =>
      last.Body? && !LeadsOn(strategy, last) && (n == 1 ==> last.items.Some?) && items == Gathered(source, n)
    case Err(NotSent) => last.SendFails?
    case Err(NotAList) => n == 1 && last.Body? && last.items.None?
    case Err(SamePageTwice) =>
      n < MAX_REQUEST_PAGES && LeadsOn(strategy, last) && Asked(base, strategy, source, n) in requests
    case Err(TooManyPages) => n == MAX_REQUEST_PAGES && LeadsOn(strategy, last)
  }

  lemma FollowedMore(base: Url, strategy: Strategy, source: Source, requests: seq<Url>, url: Url)
    requires Followed(base, strategy, source, requests)
      && (|requests| > 0 ==> LeadsOn(strategy, source(|requests| - 1)))
    requires url == Asked(base, strategy, source, |requests|) && url !in requests
    ensures Followed(base, strategy, source, requests + [url])
  {
    JoinNoDup(requests, [url]);
  }

  /** The loop's variables before request `k`. */
  ghost predicate Placed(
      strategy: Strategy, source: Source, k: nat, page: int, cursor: Option<string>, nextUrl: Option<Url>) {
    && (k > 0 ==> LeadsOn(strategy, source(k - 1)))
    && (strategy.ByPage? ==> page == strategy.start + k)
    && cursor == (if k > 0 && strategy.ByCursor? then source(k - 1).cursor else None)
    && nextUrl == (if k > 0 && strategy.ByLink? then source(k - 1).link else None)
  }

  /** The address of the next request. */
  method NextAddress(
      base: Url, strategy: Strategy, ghost source: Source, ghost k: nat, page: int, cursor: Option<string>,
      nextUrl: Option<Url>) returns (url: Url)
    requires Placed(strategy, source, k, page, cursor, nextUrl)
    ensures url == Asked(base, strategy, source, k)
  {
    url := base;
    if nextUrl.Some? {
      url := nextUrl.value;
    }
    if strategy.ByCursor? && cursor.Some? {
      url := WithParam(url, strategy.param, cursor.value);
    }
    if strategy.ByPage? {
      url := WithParam(url, strategy.param, ShowInt(page));
    }
  }

  lemma NothingYet(base: Url, strategy: Strategy, source: Source)
    ensures Followed(base, strategy, source, []) && Gathered(source, 0) == []
    ensures Placed(strategy, source, 0, if strategy.ByPage? then strategy.start else 0, None, None)
  {
  }

  /** The loop's variables after an answer that leads on, and what has been gathered. */
  lemma OneFurther(
      strategy: Strategy, source: Source, k: nat, page: int, cursor: Option<string>, nextUrl: Option<Url>)
    requires Placed(strategy, source, k, page, cursor, nextUrl)
    ensures Gathered(source, k + 1) == Gathered(source, k) + ItemsOf(source(k))
    ensures LeadsOn(strategy, source(k)) ==>
      match strategy
      case ByCursor(_) => Placed(strategy, source, k + 1, page, source(k).cursor, nextUrl)
      case ByLink => Placed(strategy, source, k + 1, page, cursor, source(k).link)
      case ByPage(_, _) => Placed(strategy, source, k + 1, page + 1, cursor, nextUrl)
  {
  }

  lemma CameFrom(
      strategy: Strategy, source: Source, k: nat, page: int, cursor: Option<string>, nextUrl: Option<Url>)
    requires Placed(strategy, source, k, page, cursor, nextUrl)
    ensures k > 0 ==> LeadsOn(strategy, source(k - 1))
  {
  }

  method CollectPages(base: Url, strategy: Strategy, source: Source)
      returns (r: Result<seq<Item>, Fault>, requests: seq<Url>)
    ensures 0 < |requests| <= MAX_REQUEST_PAGES && Followed(base, strategy, source, requests)
    ensures Ends(base, strategy, source, requests, r)
    ensures strategy.ByPage? ==> r != Err(SamePageTwice)
  {
    hide Followed, Placed, Asked, Gathered;
    NothingYet(base, strategy, source);
    var collected := [];
    var seen: set<Url> := {};
    var page := if strategy.ByPage? then strategy.start else 0;
    var cursor: Option<string> := None;
    var nextUrl: Option<Url> := None;
    requests := [];
    for index := 0 to MAX_REQUEST_PAGES
      invariant |requests| == index && Followed(base, strategy, source, requests)
      invariant forall u :: u in seen <==> u in requests
      invariant collected == Gathered(source, index)
      invariant Placed(strategy, source, index, page, cursor, nextUrl)
    {
      CameFrom(strategy, source, index, page, cursor, nextUrl);
      OneFurther(strategy, source, index, page, cursor, nextUrl);
      var url := NextAddress(base, strategy, source, index, page, cursor, nextUrl);
      if url in seen {
        PagesDiffer(base, strategy, source, requests);
        return Err(SamePageTwice), requests;
      }
      seen := seen + {url};
      FollowedMore(base, strategy, source, requests, url);
      requests := requests + [url];
      var answer := source(index);
      if answer.SendFails? {
        return Err(NotSent), requests;
      }
      if answer.items.None? {
        r := if index == 0 then Err(NotAList) else Ok(collected);
        return;
      }
      collected := collected + answer.items.value;
      if !LeadsOn(strategy, answer) {
        return Ok(collected), requests;
      }
      match strategy
      case ByCursor(_) => cursor := answer.cursor;
      case ByLink => nextUrl := answer.link;
      case ByPage(_, _) => page := page + 1;
    }
    CameFrom(strategy, source, MAX_REQUEST_PAGES, page, cursor, nextUrl);
    r := Err(TooManyPages);
  }

  /** Counted pages never come round again. */
  lemma PagesDiffer(base: Url, strategy: Strategy, source: Source, requests: seq<Url>)
    requires Followed(base, strategy, source, requests)
    requires |requests| > 0 ==> LeadsOn(strategy, source(|requests| - 1))
    ensures strategy.ByPage? ==> Asked(base, strategy, source, |requests|) !in requests
  {
    if strategy.ByPage? {
      var n := |requests|;
      forall k | 0 <= k < n ensures requests[k] != Asked(base, strategy, source, n) {
        assert requests[k].params[strategy.param] == ShowInt(strategy.start + k);
        assert Asked(base, strategy, source, n).params[strategy.param] == ShowInt(strategy.start + n);
        if ShowInt(strategy.start + k) == ShowInt(strategy.start + n) {
          ShowIntInjective(strategy.start + k, strategy.start + n);
        }
      }
    }
  }

  lemma SamePages(base: Url, strategy: Strategy, source: Source, a: seq<Url>, b: seq<Url>)
    requires Followed(base, strategy, source, a) && Followed(base, strategy, source, b) && |a| <= |b|
    ensures a == b[..|a|]
  {
  }

  lemma NextOf(base: Url, strategy: Strategy, source: Source, requests: seq<Url>, n: nat)
    requires Followed(base, strategy, source, requests) && 0 < n < |requests|
    ensures LeadsOn(strategy, source(n - 1)) && Asked(base, strategy, source, n) !in requests[..n]
  {
    assert requests[n] == Asked(base, strategy, source, n);
  }

  /** Once it has ended no more is asked. */
  lemma EndsThere(base: Url, strategy: Strategy, source: Source, a: seq<Url>, r: Result<seq<Item>, Fault>, b: seq<Url>)
    requires a != [] && Followed(base, strategy, source, a) && Ends(base, strategy, source, a, r)
    requires |b| <= MAX_REQUEST_PAGES && Followed(base, strategy, source, b)
    ensures |b| <= |a|
  {
    if |a| < |b| {
      SamePages(base, strategy, source, a, b);
      NextOf(base, strategy, source, b, |a|);
    }
  }

  /** The outcome is settled by the source: two ways of following it agree. */
  lemma EndsOnce(
      base: Url, strategy: Strategy, source: Source, a: seq<Url>, r: Result<seq<Item>, Fault>, b: seq<Url>,
      q: Result<seq<Item>, Fault>)
    requires a != [] && Followed(base, strategy, source, a) && Ends(base, strategy, source, a, r)
    requires b != [] && Followed(base, strategy, source, b) && Ends(base, strategy, source, b, q)
    requires |a| <= MAX_REQUEST_PAGES && |b| <= MAX_REQUEST_PAGES
    ensures a == b && r == q
  {
    EndsThere(base, strategy, source, a, r, b);
    EndsThere(base, strategy, source, b, q, a);
    SamePages(base, strategy, source, a, b);
    assert b[..|b|] == b;
  }

  lemma AskedDiffer(base: Url, strategy: Strategy, source: Source, requests: seq<Url>, j: nat, k: nat)
    requires Followed(base, strategy, source, requests) && j < k < |requests|
    requires forall i :: 0 <= i < k ==> LeadsOn(strategy, source(i))
    ensures Asked(base, strategy, source, j) != Asked(base, strategy, source, k)
  {
    assert requests[j] == Asked(base, strategy, source, j) && requests[k] == Asked(base, strategy, source, k);
  }

  /** A cursor or link that comes round again ends in the error. */
  lemma RepeatIsFault(
      base: Url, strategy: Strategy, source: Source, requests: seq<Url>, r: Result<seq<Item>, Fault>, j: nat, k: nat)
    requires requests != [] && |requests| <= MAX_REQUEST_PAGES
    requires Followed(base, strategy, source, requests) && Ends(base, strategy, source, requests, r)
    requires j < k < MAX_REQUEST_PAGES && forall i :: 0 <= i < k ==> LeadsOn(strategy, source(i))
    requires Asked(base, strategy, source, j) == Asked(base, strategy, source, k)
    ensures r == Err(SamePageTwice) && |requests| <= k
  {
    if k < |requests| {
      AskedDiffer(base, strategy, source, requests, j, k);
    }
    assert LeadsOn(strategy, source(|requests| - 1));
  }
}
