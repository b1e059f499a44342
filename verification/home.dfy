/**
 The home page's paging and loading state: Prev and Next clamp the page
 number and are disabled at the ends, a category chip only takes effect
 while the sidebar is collapsed, and each fetch either overwrites the page
 with what the server reports or records why it failed.
 */
module Home {
  import opened JsValue
  import opened Http

  /** Why a fetch of the video page failed. */
  datatype FetchError =
    | Rejected(reason: string)  // `fetch` rejected
    | NotConstructor            // `new error(...)` on a non-2xx status: `error` is the state variable, not a constructor
    | NotJson                   // `res.json()` rejected
    | Malformed                 // `data.data` is not an object, or its page fields are not numbers

  datatype Feed = Feed(
    page: int,
    totalPages: int,
    videos: Option<Json>,
    error: Option<FetchError>,
    loading: bool,
    sidebarExpanded: bool,
    selected: string)

  /** The state the page mounts with: page 1 of 1, no videos, loading, sidebar collapsed, category "All". */
  const Initial: Feed := Feed(1, 1, Some(JArr([])), None, true, false, "All")

  /** `Math.max(p - 1, 1)` */
  function PrevPage(p: int): (q: int)
    ensures q >= 1
    ensures p > 1 ==> q == p - 1
    ensures p <= 1 ==> q == 1
  {
    if p - 1 > 1 then p - 1 else 1
  }

  /** `Math.min(p + 1, totalPages)` */
  function NextPage(p: int, total: int): (q: int)
    ensures q <= total
    ensures p < total ==> q == p + 1
    ensures p >= total ==> q == total
  {
    if p + 1 < total then p + 1 else total
  }

  /** `disabled={page === 1}` */
  predicate PrevDisabled(s: Feed) {
    s.page == 1
  }

  /** `disabled={page === totalPages}` */
  predicate NextDisabled(s: Feed) {
    s.page == s.totalPages
  }

  /** A click on Prev; a disabled button does not fire. */
  function Prev(s: Feed): (t: Feed)
    ensures PrevDisabled(s) ==> t == s
    ensures !PrevDisabled(s) ==> t == s.(page := PrevPage(s.page))
    ensures t.page >= 1 || t == s
  {
    if PrevDisabled(s) then s else s.(page := PrevPage(s.page))
  }

  /** A click on Next; a disabled button does not fire. */
  function Next(s: Feed): (t: Feed)
    ensures NextDisabled(s) ==> t == s
    ensures !NextDisabled(s) ==> t == s.(page := NextPage(s.page, s.totalPages))
    ensures t.page <= s.totalPages || t == s
  {
    if NextDisabled(s) then s else s.(page := NextPage(s.page, s.totalPages))
  }

  /** The page is one of the pages the server reported. */
  predicate InRange(s: Feed) {
    1 <= s.page <= s.totalPages
  }

  /** Prev and Next keep the page in range, and change nothing but the page. */
  lemma PagingStaysInRange(s: Feed)
    requires InRange(s)
    ensures InRange(Prev(s)) && InRange(Next(s))
    ensures Prev(s).(page := s.page) == s && Next(s).(page := s.page) == s
  {
  }

  /** Within range a button is disabled exactly when its clamp would leave the page where it is. */
  lemma DisabledIffNoOp(s: Feed)
    requires InRange(s)
    ensures PrevDisabled(s) <==> PrevPage(s.page) == s.page
    ensures NextDisabled(s) <==> NextPage(s.page, s.totalPages) == s.page
  {
  }

  /** Next then Prev, or Prev then Next, when the first click fires, comes back to the same page. */
  lemma PrevUndoesNext(s: Feed)
    requires InRange(s)
    ensures !NextDisabled(s) ==> Prev(Next(s)) == s
    ensures !PrevDisabled(s) ==> Next(Prev(s)) == s
  {
  }

  /**
   Out of range the buttons do not protect the page: with no pages at all
   (`totalPages` 0) Next is enabled on page 1 and moves to page 0.
   */
  lemma NextLeavesRangeWhenEmpty(s: Feed)
    requires s.page == 1 && s.totalPages == 0
    ensures !NextDisabled(s) && Next(s).page == 0
  {
  }

  /** A chip click selects the category only while the sidebar is collapsed; nothing else changes. */
  function ClickCategory(s: Feed, category: string): (t: Feed)
    ensures !s.sidebarExpanded ==> t.selected == category
    ensures s.sidebarExpanded ==> t == s
    ensures t.(selected := s.selected) == s
  {
    if s.sidebarExpanded then s else s.(selected := category)
  }

  /** What the server's page looks like, once read: the videos and the two page numbers. */
  datatype Page = Page(videos: Option<Json>, totalPages: int, currentPage: int)

  /** `body?.data?.[key]` when it is a number. */
  function NumberAt(body: Option<Json>, key: string): (n: Option<int>)
    ensures n.Some? <==> Path(body, ["data", key]).Some? && Path(body, ["data", key]).value.JNum?
  {
    match Path(body, ["data", key])
    case Some(JNum(n)) => Some(n)
    case _ => None
  }

  /**
   The fetch's outcome read the way `fetchVideos` reads it, in its order:
   status, then body, then `data.data`. It succeeds exactly on a 2xx reply
   whose `data.data` carries numeric page fields, and then yields those
   fields and `data.data.videos`.
   */
  function Fetched(o: Outcome): (r: Option<Page>)
    ensures o.Throw? ==> r.None?
    ensures o.Reply? && !Ok(o.response) ==> r.None?
    ensures r.Some? <==>
      o.Reply? && Ok(o.response)
      && NumberAt(o.response.body, "totalPages").Some? && NumberAt(o.response.body, "currentPage").Some?
    ensures r.Some? ==>
      r.value == Page(
        Path(o.response.body, ["data", "videos"]),
        NumberAt(o.response.body, "totalPages").value,
        NumberAt(o.response.body, "currentPage").value)
  {
    match o
    case Throw(_) => None
    case Reply(res) =>
      PathPair(res.body, "data", "totalPages");
      PathPair(res.body, "data", "currentPage");
      PathPair(res.body, "data", "videos");
      if !Ok(res) || res.body.None? then None
      else match Get(res.body, "data")
        case Some(JObj(d)) =>
          (match (Lookup(d, "totalPages"), Lookup(d, "currentPage"))
           case (Some(JNum(t)), Some(JNum(c))) => Some(Page(Lookup(d, "videos"), t, c))
           case _ => None)
        case _ => None
  }

  /** The error a failed fetch records. */
  function ErrorOf(o: Outcome): (e: FetchError)
    requires Fetched(o).None?
    ensures o.Throw? ==> e == Rejected(o.reason)
    ensures o.Reply? && !Ok(o.response) ==> e == NotConstructor
  {
    match o
    case Throw(reason) => Rejected(reason)
    case Reply(res) =>
      if !Ok(res) then NotConstructor
      else if res.body.None? then NotJson
      else Malformed
  }

  /**
   `fetchVideos()` as written: a good reply overwrites the videos, the page
   count and the page, a failed one records its error and leaves them; the
   loading flag drops either way. A good reply does not clear an earlier error.
   */
  function Load(s: Feed, o: Outcome): (t: Feed)
    ensures !t.loading
    ensures t.sidebarExpanded == s.sidebarExpanded && t.selected == s.selected
    ensures Fetched(o).Some? ==>
      && t.videos == Fetched(o).value.videos
      && t.totalPages == Fetched(o).value.totalPages
      && t.page == Fetched(o).value.currentPage
      && t.error == s.error
    ensures Fetched(o).None? ==>
      t.error == Some(ErrorOf(o)) && t.page == s.page && t.totalPages == s.totalPages && t.videos == s.videos
  {
    match Fetched(o)
    case Some(p) => s.(videos := p.videos, totalPages := p.totalPages, page := p.currentPage, loading := false)
    case None => s.(error := Some(ErrorOf(o)), loading := false)
  }

  /**
   Both paging buttons' disabled conditions hold in the initial state (the
   buttons themselves are not rendered until the first load ends), and the
   first load either shows the server's page with no error or keeps page 1
   of 1 and shows the error.
   */
  lemma FirstLoad(o: Outcome)
    ensures PrevDisabled(Initial) && NextDisabled(Initial)
    ensures Fetched(o).Some? ==>
      Load(Initial, o) == Feed(Fetched(o).value.currentPage, Fetched(o).value.totalPages, Fetched(o).value.videos, None, false, false, "All")
    ensures Fetched(o).None? ==>
      Load(Initial, o) == Feed(1, 1, Some(JArr([])), Some(ErrorOf(o)), false, false, "All")
  {
  }

  /** Once a fetch has failed, every later load still carries an error, so the page keeps showing it instead of the videos. */
  lemma ErrorOutlivesRecovery(s: Feed, o: Outcome)
    requires s.error.Some?
    ensures Load(s, o).error.Some?
  {
  }

  /** The smallest case: a rejected fetch followed by a good one still leaves the error on screen. */
  lemma FailedThenGoodLoadShowsError(s: Feed, bad: Outcome, good: Outcome)
    requires bad.Throw? && Fetched(good).Some?
    ensures Load(Load(s, bad), good).error == Some(Rejected(bad.reason))
    ensures Load(Load(s, bad), good).page == Fetched(good).value.currentPage
  {
  }

  /** The evidently intended load: a good reply also clears the error. */
  function LoadFixed(s: Feed, o: Outcome): (t: Feed)
    ensures Fetched(o).Some? ==> t.error.None?
    ensures Fetched(o).None? ==> t.error == Some(ErrorOf(o))
  {
    match Fetched(o)
    case Some(p) => s.(videos := p.videos, totalPages := p.totalPages, page := p.currentPage, loading := false, error := None)
    case None => s.(error := Some(ErrorOf(o)), loading := false)
  }

  /** The fix differs from the original only in the error it leaves after a good reply. */
  lemma LoadFixedOnlyClearsError(s: Feed, o: Outcome)
    ensures LoadFixed(s, o).(error := None) == Load(s, o).(error := None)
    ensures Fetched(o).None? ==> LoadFixed(s, o) == Load(s, o)
  {
  }

  /** With the fix a good reply after a failure shows the videos again. */
  lemma FixedRecovers(s: Feed, bad: Outcome, good: Outcome)
    requires Fetched(bad).None? && Fetched(good).Some?
    ensures LoadFixed(LoadFixed(s, bad), good).error.None?
    ensures LoadFixed(LoadFixed(s, bad), good).videos == Fetched(good).value.videos
  {
  }
}
