/**
 * The curses search tool (search_torrents.py): the query parameters of a
 * search request, and the results browser in `main`, a loop over key presses
 * that moves a clamped selection and pages through the results.
 * HTTP is not modelled: the search service is a function from the request's
 * parameters to its reply.
 */
module Search {
  import opened Wrappers
  import opened Keys

  /** A value of the query-parameter dict. */
  datatype ParamValue = Text(s: string) | Number(n: int)

  type Params = map<string, ParamValue>

  /** Python truthiness of `after`: `None` and `0` are false. */
  predicate Truthy(after: Option<int>)
  {
    after.Some? && after.value != 0
  }

  /** The parameters `search_torrents` sends: `q` and `size` always, `after` only when truthy. */
  function ParamsFor(query: string, size: int, after: Option<int>): (r: Params)
    ensures "q" in r && r["q"] == Text(query)
    ensures "size" in r && r["size"] == Number(size)
    ensures "after" in r <==> Truthy(after)
    ensures "after" in r ==> r["after"] == Number(after.value)
    ensures r.Keys <= {"q", "size", "after"}
  {
    var base := map["q" := Text(query), "size" := Number(size)];
    if Truthy(after) then base["after" := Number(after.value)] else base
  }

  /** `search_torrents`' construction of `params`, a dict it updates in place. */
  method SearchParams(query: string, numberOfResults: int, after: Option<int>) returns (params: Params)
    ensures params == ParamsFor(query, numberOfResults, after)
  {
    params := map["q" := Text(query), "size" := Number(numberOfResults)];
    if after.Some? && after.value != 0 {
      params := params["after" := Number(after.value)];
    }
  }

  /** A search result: the fields of the JSON object the tool reads. */
  datatype Torrent = Torrent(name: string, infohash: string, rowid: int)

  /** The service's reply to one request. */
  datatype Reply =
    | RequestFailed                                    // a RequestException
    | Results(torrents: seq<Torrent>, next: Option<int>)  // `data.get('torrents', [])`, `data.get('next')`

  /** What `search_torrents` returns: `(None, None)` on a failed request. */
  function Fetch(reply: Reply): (r: (Option<seq<Torrent>>, Option<int>))
    ensures reply.RequestFailed? <==> r.0.None?
    ensures reply.RequestFailed? ==> r.1.None?
    ensures reply.Results? ==> r.0 == Some(reply.torrents) && r.1 == reply.next
  {
    match reply
    case RequestFailed => (None, None)
    case Results(ts, next) => (Some(ts), next)
  }

  /** `number_of_results` in `main`. */
  const PageSize: int := 25

  /** The loop variables of `main`. */
  datatype Browser = Browser(torrents: Option<seq<Torrent>>, next: Option<int>, selected: int, page: int)

  /** The side effects of `main`, in order. */
  datatype Effect =
    | Request(params: Params, page: int)  // a search request, for results page `page`
    | Save(torrent: Torrent)              // save_torrent_info: the torrent as JSON
    | Download(torrent: Torrent)          // download_metadata for the torrent

  datatype Status =
    | Browsing(at: Browser)          // blocked in getch at the results menu
    | AwaitingAcknowledge(at: Browser)  // blocked in the getch after "Saved to ..."
    | Quit(at: Browser)
    | Crashed(error: string, at: Browser)  // an uncaught exception ends `main`

  datatype Outcome = Outcome(status: Status, effects: seq<Effect>)

  function Prepend(e: Effect, o: Outcome): (r: Outcome)
  {
    Outcome(o.status, [e] + o.effects)
  }

  /** A fresh results page: selection back at the top. */
  function Reload(service: Params -> Reply, params: Params, page: int): Browser
  {
    var (ts, next) := Fetch(service(params));
    Browser(ts, next, 0, page)
  }

  /**
   * The loop of `main` from state `b`. Drawing the menu fails on `None`
   * results (a failed request) but not on an empty page; Left, 's' and 'd'
   * index the results and fail on an empty page.
   */
  function Run(query: string, service: Params -> Reply, b: Browser, keys: seq<Key>): (r: Outcome)
    ensures b.torrents.None? ==> r.status == Crashed("TypeError", b) && r.effects == []
    ensures b.torrents.Some? && keys == [] ==> r.status == Browsing(b) && r.effects == []
    ensures r.status.Quit? ==> keys != []
    decreases |keys|
  {
    if b.torrents.None? then Outcome(Crashed("TypeError", b), [])
    else if keys == [] then Outcome(Browsing(b), [])
    else
      var ts := b.torrents.value;
      var key := keys[0];
      if key == KeyUp && b.selected > 0 then
        Run(query, service, b.(selected := b.selected - 1), keys[1..])
      else if key == KeyDown && b.selected < |ts| - 1 then
        Run(query, service, b.(selected := b.selected + 1), keys[1..])
      else if key == KeyRight && Truthy(b.next) then
        var params := ParamsFor(query, PageSize, b.next);
        Prepend(Request(params, b.page + 1),
                Run(query, service, Reload(service, params, b.page + 1), keys[1..]))
      else if key == KeyLeft && b.page > 1 then
        if ts == [] then Outcome(Crashed("IndexError", b), [])
        else
          var params := ParamsFor(query, PageSize, Some(ts[0].rowid - PageSize));
          Prepend(Request(params, b.page - 1),
                  Run(query, service, Reload(service, params, b.page - 1), keys[1..]))
      else if key == KeySave then
        if !(0 <= b.selected < |ts|) then Outcome(Crashed("IndexError", b), [])
        else if |keys| == 1 then Outcome(AwaitingAcknowledge(b), [Save(ts[b.selected])])
        else Prepend(Save(ts[b.selected]), Run(query, service, b, keys[2..]))
      else if key == KeyDownload then
        if !(0 <= b.selected < |ts|) then Outcome(Crashed("IndexError", b), [])
        else Prepend(Download(ts[b.selected]), Run(query, service, b, keys[1..]))
      else if key == KeyQuit then Outcome(Quit(b), [])
      else Run(query, service, b, keys[1..])
  }

  /** `main` after the query prompt: the first request, then the loop. */
  function MainSpec(query: string, service: Params -> Reply, keys: seq<Key>): (r: Outcome)
    ensures r.effects != [] && r.effects[0] == Request(ParamsFor(query, PageSize, None), 1)
    ensures "after" !in r.effects[0].params
  {
    var params := ParamsFor(query, PageSize, None);
    Prepend(Request(params, 1), Run(query, service, Reload(service, params, 1), keys))
  }

  /** Each key press causes at most one request, save or download. */
  lemma {:induction false} EffectsPerKey(query: string, service: Params -> Reply, b: Browser, keys: seq<Key>)
    ensures |Run(query, service, b, keys).effects| <= |keys|
    decreases |keys|
  {
    if b.torrents.Some? && keys != [] {
      var ts := b.torrents.value;
      var key := keys[0];
      if key == KeyUp && b.selected > 0 {
        EffectsPerKey(query, service, b.(selected := b.selected - 1), keys[1..]);
      } else if key == KeyDown && b.selected < |ts| - 1 {
        EffectsPerKey(query, service, b.(selected := b.selected + 1), keys[1..]);
      } else if key == KeyRight && Truthy(b.next) {
        EffectsPerKey(query, service, Reload(service, ParamsFor(query, PageSize, b.next), b.page + 1), keys[1..]);
      } else if key == KeyLeft && b.page > 1 {
        if ts != [] {
          var back := ParamsFor(query, PageSize, Some(ts[0].rowid - PageSize));
          EffectsPerKey(query, service, Reload(service, back, b.page - 1), keys[1..]);
        }
      } else if key == KeySave {
        if 0 <= b.selected < |ts| && |keys| > 1 {
          EffectsPerKey(query, service, b, keys[2..]);
        }
      } else if key == KeyDownload {
        if 0 <= b.selected < |ts| {
          EffectsPerKey(query, service, b, keys[1..]);
        }
      } else if key != KeyQuit {
        EffectsPerKey(query, service, b, keys[1..]);
      }
    }
  }

  /** `main` makes its first request, then at most one more effect per key. */
  lemma MainEffectsPerKey(query: string, service: Params -> Reply, keys: seq<Key>)
    ensures |MainSpec(query, service, keys).effects| <= |keys| + 1
  {
    EffectsPerKey(query, service, Reload(service, ParamsFor(query, PageSize, None), 1), keys);
  }

  /** The browser a status holds. */
  function At(s: Status): Browser
  {
    match s
    case Browsing(b) => b
    case AwaitingAcknowledge(b) => b
    case Quit(b) => b
    case Crashed(_, b) => b
  }

  /** The selection is on a row of a non-empty page, or at 0; the page number is at least 1. */
  predicate Good(b: Browser)
  {
    b.page >= 1 && 0 <= b.selected
    && (b.torrents.Some? && b.torrents.value != [] ==> b.selected < |b.torrents.value|)
    && (b.torrents.Some? && b.torrents.value == [] ==> b.selected == 0)
  }

  /** The page of the last request in `effects`, or `page` when there is none. */
  function LastPage(page: int, effects: seq<Effect>): int
    decreases |effects|
  {
    if effects == [] then page
    else LastPage(if effects[0].Request? then effects[0].page else page, effects[1..])
  }

  lemma {:induction false} LastPagePrepend(page: int, e: Effect, effects: seq<Effect>)
    ensures LastPage(page, [e] + effects) == LastPage(if e.Request? then e.page else page, effects)
  {
    assert ([e] + effects)[1..] == effects;
  }

  /**
   * Whatever the keys, the selection stays clamped to the rows of the page,
   * `current_page` never drops below 1 and is the page of the latest request,
   * and every request is for a page numbered at least 1.
   */
  lemma {:induction false} RunGood(query: string, service: Params -> Reply, b: Browser, keys: seq<Key>)
    requires Good(b)
    ensures var o := Run(query, service, b, keys);
      Good(At(o.status))
      && At(o.status).page == LastPage(b.page, o.effects)
      && forall e :: e in o.effects && e.Request? ==> e.page >= 1
    decreases |keys|
  {
    if b.torrents.Some? && keys != [] {
      var ts := b.torrents.value;
      var key := keys[0];
      if key == KeyUp && b.selected > 0 {
        assert Run(query, service, b, keys) == Run(query, service, b.(selected := b.selected - 1), keys[1..]);
        RunGood(query, service, b.(selected := b.selected - 1), keys[1..]);
      } else if key == KeyDown && b.selected < |ts| - 1 {
        assert Run(query, service, b, keys) == Run(query, service, b.(selected := b.selected + 1), keys[1..]);
        RunGood(query, service, b.(selected := b.selected + 1), keys[1..]);
      } else if key == KeyRight && Truthy(b.next) {
        var params := ParamsFor(query, PageSize, b.next);
        var o := Run(query, service, Reload(service, params, b.page + 1), keys[1..]);
        assert Run(query, service, b, keys) == Prepend(Request(params, b.page + 1), o);
        RunGood(query, service, Reload(service, params, b.page + 1), keys[1..]);
        LastPagePrepend(b.page, Request(params, b.page + 1), o.effects);
      } else if key == KeyLeft && b.page > 1 {
        if ts != [] {
          var params := ParamsFor(query, PageSize, Some(ts[0].rowid - PageSize));
          var o := Run(query, service, Reload(service, params, b.page - 1), keys[1..]);
          assert Run(query, service, b, keys) == Prepend(Request(params, b.page - 1), o);
          RunGood(query, service, Reload(service, params, b.page - 1), keys[1..]);
          LastPagePrepend(b.page, Request(params, b.page - 1), o.effects);
        }
      } else if key == KeySave {
        if 0 <= b.selected < |ts| {
          if |keys| == 1 {
            assert LastPage(b.page, [Save(ts[b.selected])]) == LastPage(b.page, []);
          } else {
            var o := Run(query, service, b, keys[2..]);
            assert Run(query, service, b, keys) == Prepend(Save(ts[b.selected]), o);
            RunGood(query, service, b, keys[2..]);
            LastPagePrepend(b.page, Save(ts[b.selected]), o.effects);
          }
        }
      } else if key == KeyDownload {
        if 0 <= b.selected < |ts| {
          var o := Run(query, service, b, keys[1..]);
          assert Run(query, service, b, keys) == Prepend(Download(ts[b.selected]), o);
          RunGood(query, service, b, keys[1..]);
          LastPagePrepend(b.page, Download(ts[b.selected]), o.effects);
        }
      } else if key != KeyQuit {
        RunGood(query, service, b, keys[1..]);
      }
    }
  }

  /** The whole loop of `main` keeps the invariant, from the first page. */
  lemma MainGood(query: string, service: Params -> Reply, keys: seq<Key>)
    ensures var o := MainSpec(query, service, keys);
      Good(At(o.status)) && At(o.status).page == LastPage(1, o.effects)
      && forall e :: e in o.effects && e.Request? ==> e.page >= 1
  {
    var params := ParamsFor(query, PageSize, None);
    var o := Run(query, service, Reload(service, params, 1), keys);
    RunGood(query, service, Reload(service, params, 1), keys);
    LastPagePrepend(1, Request(params, 1), o.effects);
  }

  /** Up at the top row and Down at the bottom row do nothing: the selection is clamped, not wrapped. */
  lemma Clamped(query: string, service: Params -> Reply, ts: seq<Torrent>, next: Option<int>, page: int,
                keys: seq<Key>)
    requires ts != []
    ensures Run(query, service, Browser(Some(ts), next, 0, page), [KeyUp] + keys)
         == Run(query, service, Browser(Some(ts), next, 0, page), keys)
    ensures Run(query, service, Browser(Some(ts), next, |ts| - 1, page), [KeyDown] + keys)
         == Run(query, service, Browser(Some(ts), next, |ts| - 1, page), keys)
  {
    assert ([KeyUp] + keys)[1..] == keys;
    assert ([KeyDown] + keys)[1..] == keys;
  }

  /**
   * Left on a later page asks for the results after the first row's id less
   * a page, and goes back one page with the selection at the top.
   */
  lemma PreviousPage(query: string, service: Params -> Reply, b: Browser)
    requires b.torrents.Some? && b.torrents.value != [] && b.page > 1
    ensures var o := Run(query, service, b, [KeyLeft]);
      var after := b.torrents.value[0].rowid - PageSize;
      o.effects == [Request(ParamsFor(query, PageSize, Some(after)), b.page - 1)]
      && (after == 0 ==> "after" !in o.effects[0].params)
      && (o.status.Browsing? ==> o.status.at.page == b.page - 1 && o.status.at.selected == 0)
  {
    var after := b.torrents.value[0].rowid - PageSize;
    var params := ParamsFor(query, PageSize, Some(after));
    var o := Run(query, service, Reload(service, params, b.page - 1), []);
    assert [KeyLeft][1..] == [];
    assert [Request(params, b.page - 1)] + o.effects == [Request(params, b.page - 1)];
  }

  /**
   * Right with a `next` token asks for the results after it, and moves on one
   * page with the selection at the top of the new results.
   */
  lemma NextPage(query: string, service: Params -> Reply, b: Browser)
    requires b.torrents.Some? && Truthy(b.next)
    ensures var o := Run(query, service, b, [KeyRight]);
      var params := ParamsFor(query, PageSize, b.next);
      o.effects == [Request(params, b.page + 1)]
      && params["after"] == Number(b.next.value)
      && var (ts, next) := Fetch(service(params));
      (ts.Some? ==> o.status == Browsing(Browser(ts, next, 0, b.page + 1)))
  {
    var params := ParamsFor(query, PageSize, b.next);
    var o := Run(query, service, Reload(service, params, b.page + 1), []);
    assert [KeyRight][1..] == [];
    assert [Request(params, b.page + 1)] + o.effects == [Request(params, b.page + 1)];
  }

  /** `main`'s loop, from the first request, as the source runs it. */
  method SearchMain(query: string, service: Params -> Reply, keys: seq<Key>) returns (o: Outcome)
    ensures o.status == MainSpec(query, service, keys).status
    ensures o.effects == MainSpec(query, service, keys).effects
  {
    var numberOfResults := PageSize;
    var params := SearchParams(query, numberOfResults, None);
    var effects := [Request(params, 1)];
    var torrents, nextPage := Fetch(service(params)).0, Fetch(service(params)).1;
    var selectedRowIdx := 0;
    var currentPage := 1;
    var i := 0;
    while true
      invariant 0 <= i <= |keys|
      invariant MainSpec(query, service, keys).status
             == Run(query, service, Browser(torrents, nextPage, selectedRowIdx, currentPage), keys[i..]).status
      invariant MainSpec(query, service, keys).effects
             == effects + Run(query, service, Browser(torrents, nextPage, selectedRowIdx, currentPage), keys[i..]).effects
      decreases |keys| - i
    {
      var b := Browser(torrents, nextPage, selectedRowIdx, currentPage);
      ghost var before := effects;
      if torrents.None? {
        // draw_menu iterates over the results
        return Outcome(Crashed("TypeError", b), effects);
      }
      if i == |keys| {
        return Outcome(Browsing(b), effects);
      }
      var ts := torrents.value;
      var key := keys[i];
      assert keys[i..][0] == key && keys[i..][1..] == keys[i + 1..];
      i := i + 1;
      if key == KeyUp && selectedRowIdx > 0 {
        selectedRowIdx := selectedRowIdx - 1;
      } else if key == KeyDown && selectedRowIdx < |ts| - 1 {
        selectedRowIdx := selectedRowIdx + 1;
      } else if key == KeyRight && nextPage.Some? && nextPage.value != 0 {
        params := SearchParams(query, numberOfResults, nextPage);
        torrents, nextPage := Fetch(service(params)).0, Fetch(service(params)).1;
        selectedRowIdx := 0;
        currentPage := currentPage + 1;
        effects := effects + [Request(params, currentPage)];
        assert effects + Run(query, service, Browser(torrents, nextPage, selectedRowIdx, currentPage), keys[i..]).effects
            == before + ([Request(params, currentPage)]
                 + Run(query, service, Browser(torrents, nextPage, selectedRowIdx, currentPage), keys[i..]).effects);
      } else if key == KeyLeft && currentPage > 1 {
        if |ts| == 0 {
          return Outcome(Crashed("IndexError", b), effects);
        }
        var previousPage := ts[0].rowid - numberOfResults;
        params := SearchParams(query, numberOfResults, Some(previousPage));
        torrents, nextPage := Fetch(service(params)).0, Fetch(service(params)).1;
        selectedRowIdx := 0;
        currentPage := currentPage - 1;
        effects := effects + [Request(params, currentPage)];
        assert effects + Run(query, service, Browser(torrents, nextPage, selectedRowIdx, currentPage), keys[i..]).effects
            == before + ([Request(params, currentPage)]
                 + Run(query, service, Browser(torrents, nextPage, selectedRowIdx, currentPage), keys[i..]).effects);
      } else if key == KeySave {
        if !(0 <= selectedRowIdx < |ts|) {
          return Outcome(Crashed("IndexError", b), effects);
        }
        effects := effects + [Save(ts[selectedRowIdx])];
        if i == |keys| {
          return Outcome(AwaitingAcknowledge(b), effects);
        }
        // the key that acknowledges "Saved to ..." is read and dropped
        assert keys[i - 1..][2..] == keys[i + 1..];
        i := i + 1;
        assert effects + Run(query, service, b, keys[i..]).effects
            == before + ([Save(ts[selectedRowIdx])] + Run(query, service, b, keys[i..]).effects);
      } else if key == KeyDownload {
        if !(0 <= selectedRowIdx < |ts|) {
          return Outcome(Crashed("IndexError", b), effects);
        }
        effects := effects + [Download(ts[selectedRowIdx])];
        assert effects + Run(query, service, b, keys[i..]).effects
            == before + ([Download(ts[selectedRowIdx])] + Run(query, service, b, keys[i..]).effects);
      } else if key == KeyQuit {
        return Outcome(Quit(b), effects);
      }
    }
  }
}
