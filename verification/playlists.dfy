/**
 The playlists page: loading the list and giving every playlist the
 thumbnail of its first video, creating a playlist, and deleting one.
 The module scripts are strict code, so writing `firstThumbnail` on an entry
 that is not an object throws, as does reading a property of `null`.
 */
module Playlists {
  import opened JsValue
  import opened Http
  import opened Lists

  /** `p._id` */
  function IdOf(p: Json): Option<Json> {
    Get(Some(p), "_id")
  }

  function IdIs(id: string): Option<Json> {
    Some(JStr(id))
  }

  // ---------------------------------------------------------------------------
  // Thumbnails

  /** `pl.videos && pl.videos.length > 0`, for a list of videos. */
  predicate HasVideos(fields: map<string, Json>) {
    "videos" in fields && fields["videos"].JArr? && |fields["videos"].items| > 0
  }

  /**
   The thumbnail read from the first video's page: `videoData.data.thumbnail`,
   `null` when the request, the body or the read of `data` throws.
   */
  function Thumbnail(o: Outcome): (t: Option<Json>)
    ensures o.Throw? ==> t == Some(JNull)
    ensures o.Reply? && o.response.body.None? ==> t == Some(JNull)
    // `videoData.data` is null or undefined: the read throws
    ensures o.Reply? && (Get(o.response.body, "data").None? || Get(o.response.body, "data") == Some(JNull)) ==> t == Some(JNull)
    // otherwise the thumbnail is the read itself, undefined on anything but an object holding it
    ensures o.Reply? && Get(o.response.body, "data").Some? && Get(o.response.body, "data").value != JNull ==>
      t == Path(o.response.body, ["data", "thumbnail"])
  {
    match o
    case Throw(_) => Some(JNull)
    case Reply(res) =>
      PathPair(res.body, "data", "thumbnail");
      match res.body
      case None => Some(JNull)
      case Some(JNull) => Some(JNull)
      case Some(body) =>
        match Get(Some(body), "data")
        case None => Some(JNull)
        case Some(JNull) => Some(JNull)
        case Some(JObj(d)) => Lookup(d, "thumbnail")
        case Some(_) => None
  }

  /**
   One playlist with `firstThumbnail` set: from the first video's page when
   it has videos (`watch` gives the outcome of fetching a video's page), `null`
   otherwise; every other field is kept.
   */
  function WithThumbnail(fields: map<string, Json>, watch: Json -> Outcome): (r: map<string, Json>)
    ensures HasVideos(fields) ==> Lookup(r, "firstThumbnail") == Thumbnail(watch(fields["videos"].items[0]))
    ensures !HasVideos(fields) ==> Lookup(r, "firstThumbnail") == Some(JNull)
    ensures forall k :: k != "firstThumbnail" ==> Lookup(r, k) == Lookup(fields, k)
  {
    if HasVideos(fields) then Assign(fields, "firstThumbnail", Thumbnail(watch(fields["videos"].items[0])))
    else fields["firstThumbnail" := JNull]
  }

  predicate AllObjects(s: seq<Json>) {
    forall i :: 0 <= i < |s| ==> s[i].JObj?
  }

  /** `Promise.all(list.map(...))` over playlists that are all objects. */
  function Enrich(s: seq<Json>, watch: Json -> Outcome): (r: seq<Json>)
    requires AllObjects(s)
    ensures |r| == |s|
    ensures forall i :: 0 <= i < |s| ==> r[i] == JObj(WithThumbnail(s[i].fields, watch))
  {
    seq(|s|, i requires 0 <= i < |s| => JObj(WithThumbnail(s[i].fields, watch)))
  }

  /** Enrichment keeps the playlists, their order and their ids; a playlist without videos gets a `null` thumbnail. */
  lemma EnrichKeepsPlaylists(s: seq<Json>, watch: Json -> Outcome)
    requires AllObjects(s)
    ensures |Enrich(s, watch)| == |s|
    ensures forall i :: 0 <= i < |s| ==> IdOf(Enrich(s, watch)[i]) == IdOf(s[i])
    ensures forall i, k :: 0 <= i < |s| && k != "firstThumbnail" ==> Lookup(Enrich(s, watch)[i].fields, k) == Lookup(s[i].fields, k)
    ensures forall i :: 0 <= i < |s| && !HasVideos(s[i].fields) ==> Lookup(Enrich(s, watch)[i].fields, "firstThumbnail") == Some(JNull)
  {
  }

  /** The thumbnail comes from the first video's page and nowhere else: the lookup of any other playlist does not matter. */
  lemma ThumbnailDependsOnFirstVideo(fields: map<string, Json>, w1: Json -> Outcome, w2: Json -> Outcome)
    requires HasVideos(fields) && w1(fields["videos"].items[0]) == w2(fields["videos"].items[0])
    ensures WithThumbnail(fields, w1) == WithThumbnail(fields, w2)
  {
  }

  /** `res.data || []` */
  function DataOrEmpty(body: Option<Json>): (d: Json)
    ensures Truthy(Get(body, "data")) ==> Get(body, "data") == Some(d)
    ensures !Truthy(Get(body, "data")) ==> d == JArr([])
  {
    Or(Get(body, "data"), Some(JArr([]))).value
  }

  /**
   When the load goes through: the body parsed and is not `null`, and
   `res.data || []` is a list of objects, each of which takes a
   `firstThumbnail` property.
   */
  predicate LoadSucceeds(o: Outcome) {
    && o.Reply? && o.response.body.Some? && o.response.body.value != JNull
    && DataOrEmpty(o.response.body).JArr? && AllObjects(DataOrEmpty(o.response.body).items)
  }

  /**
   `getPlaylists()` then `(res.data || []).map(...)`: the list the page shows,
   or `None` when something threw and the list stays as it was.
   */
  function Loaded(o: Outcome, watch: Json -> Outcome): (r: Option<seq<Json>>)
    ensures r.Some? ==> o.Reply? && o.response.body.Some?
    ensures r.Some? && !Truthy(Get(o.response.body, "data")) ==> r.value == []
    ensures r.Some? <==> LoadSucceeds(o)
    ensures r.Some? ==> r.value == Enrich(DataOrEmpty(o.response.body).items, watch)
  {
    match o
    case Throw(_) => None
    case Reply(res) =>
      match res.body
      case None => None
      case Some(JNull) => None
      case Some(body) =>
        match Or(Get(Some(body), "data"), Some(JArr([])))
        case Some(JArr(items)) => if AllObjects(items) then Some(Enrich(items, watch)) else None
        case _ => None
  }

  /** `fetchPlaylists()`: the enriched list on success, the current one otherwise. */
  function FetchPlaylists(current: seq<Json>, o: Outcome, watch: Json -> Outcome): (r: seq<Json>)
    ensures LoadSucceeds(o) ==> r == Enrich(DataOrEmpty(o.response.body).items, watch)
    ensures !LoadSucceeds(o) ==> r == current
  {
    Loaded(o, watch).GetOr(current)
  }

  // ---------------------------------------------------------------------------
  // Create and delete

  /** The list and the create dialog. */
  datatype Library = Library(playlists: seq<Json>, name: string, description: string, modal: bool)

  /** The created playlist from `createPlaylist`'s parsed body: `res.data`, when `res.success` and it is an object. */
  function Created(o: Outcome): (p: Option<map<string, Json>>)
    ensures p.Some? ==> o.Reply? && o.response.body.Some? && Truthy(Get(o.response.body, "success"))
    ensures p.Some? <==>
      o.Reply? && Truthy(Get(o.response.body, "success"))
      && Get(o.response.body, "data").Some? && Get(o.response.body, "data").value.JObj?
    ensures p.Some? ==> Get(o.response.body, "data") == Some(JObj(p.value))
  {
    match o
    case Throw(_) => None
    case Reply(res) =>
      if !Truthy(Get(res.body, "success")) then None
      else match Get(res.body, "data")
        case Some(JObj(d)) => Some(d)
        case _ => None
  }

  /**
   `handleAdd()`: an empty name or description sends nothing; a created
   playlist goes first with a `null` thumbnail and the dialog resets; any
   other reply leaves everything as it was.
   */
  function Add(s: Library, o: Outcome): (h: Handled<Library>)
    ensures h.sent <==> s.name != "" && s.description != ""
    ensures h.sent && Created(o).Some? ==>
      && |h.state.playlists| == |s.playlists| + 1
      && h.state.playlists[1..] == s.playlists
      && h.state.playlists[0].JObj?
      && Lookup(h.state.playlists[0].fields, "firstThumbnail") == Some(JNull)
      && (forall k :: k != "firstThumbnail" ==> Lookup(h.state.playlists[0].fields, k) == Lookup(Created(o).value, k))
      && h.state.name == "" && h.state.description == "" && !h.state.modal
    ensures !(h.sent && Created(o).Some?) ==> h.state == s
  {
    if s.name == "" || s.description == "" then Handled(s, false)
    else match Created(o)
      case Some(d) => Handled(Library([JObj(d["firstThumbnail" := JNull])] + s.playlists, "", "", false), true)
      case None => Handled(s, true)
  }

  /** The name and description are checked as typed: a name of spaces is sent. */
  lemma SpacesAreNotEmpty(s: Library, o: Outcome)
    requires s.name == " " && s.description == " "
    ensures Add(s, o).sent
  {
  }

  /**
   `handleDelete(id)`: a declined confirmation sends nothing; once the call
   resolves with any parsed body, exactly the playlists with the id go, the
   rest keep their order; a rejection leaves the list.
   */
  function Delete(s: Library, id: string, confirmed: bool, o: Outcome): (h: Handled<Library>)
    ensures h.sent == confirmed
    ensures confirmed && o.Reply? && o.response.body.Some? ==> h.state == s.(playlists := Without(s.playlists, IdOf, IdIs(id)))
    ensures !(confirmed && o.Reply? && o.response.body.Some?) ==> h.state == s
  {
    if !confirmed then Handled(s, false)
    else if o.Reply? && o.response.body.Some? then Handled(s.(playlists := Without(s.playlists, IdOf, IdIs(id))), true)
    else Handled(s, true)
  }

  /** Deleting removes every playlist with the id and keeps the others in order. */
  lemma DeleteRemovesExactly(s: Library, id: string, o: Outcome)
    requires o.Reply? && o.response.body.Some?
    ensures var r := Delete(s, id, true, o).state.playlists;
            && (forall i :: 0 <= i < |r| ==> IdOf(r[i]) != IdIs(id))
            && (forall i :: 0 <= i < |s.playlists| && IdOf(s.playlists[i]) != IdIs(id) ==> s.playlists[i] in r)
            && Subsequence(r, s.playlists)
  {
    WithoutIsSubsequence(s.playlists, IdOf, IdIs(id));
  }

  /** A second delete of the same id changes nothing more. */
  lemma DeleteTwiceIsDeleteOnce(s: Library, id: string, o1: Outcome, o2: Outcome)
    requires o1.Reply? && o1.response.body.Some?
    ensures Delete(Delete(s, id, true, o1).state, id, true, o2).state == Delete(s, id, true, o1).state
  {
    WithoutIdempotent(s.playlists, IdOf, IdIs(id));
  }

  /** Deleting a just-created playlist under an id no other playlist has gives back the list as it was. */
  lemma {:induction false} DeleteUndoesAdd(s: Library, o: Outcome, id: string, o2: Outcome)
    requires Add(s, o).sent && Created(o).Some?
    requires Lookup(Created(o).value, "_id") == Some(JStr(id))
    requires forall i :: 0 <= i < |s.playlists| ==> IdOf(s.playlists[i]) != IdIs(id)
    requires o2.Reply? && o2.response.body.Some?
    ensures Delete(Add(s, o).state, id, true, o2).state.playlists == s.playlists
  {
    var added := Add(s, o).state.playlists;
    assert IdOf(added[0]) == IdIs(id);
    assert added == [added[0]] + s.playlists;
    assert added[1..] == s.playlists;
    WithoutAbsent(s.playlists, IdOf, IdIs(id));
  }
}
