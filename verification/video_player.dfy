/**
 The state updates of the watch page once the server has answered: the
 recommended list that hides the video being watched, like and dislike
 reconciliation guarded by a loading flag, adding, editing and deleting
 comments, and the subscribe toggle with its subscriber counter.
 A handler whose request rejects, whose body is not JSON, or whose status is
 not 2xx throws inside its own `try` and leaves the page state as it was.
 */
module VideoPlayer {
  import opened JsValue
  import opened Text
  import opened Http
  import opened Lists

  /** `x._id`, undefined on anything but an object holding it. */
  function IdOf(x: Json): Option<Json> {
    Get(Some(x), "_id")
  }

  /** The value `x._id === id` compares against: only a string id equals the route's string. */
  function IdIs(id: string): Option<Json> {
    Some(JStr(id))
  }

  // ---------------------------------------------------------------------------
  // Recommended videos

  /** `data?.data?.videos` as a list, when it is one. */
  function Videos(body: Option<Json>): seq<Json> {
    match Path(body, ["data", "videos"])
    case Some(JArr(items)) => items
    case _ => []
  }

  /**
   The recommended-videos fetch: `None` when the list is never set because
   something throws first (the fetch rejects, the status is not 2xx, the body
   does not parse), or because `data?.data?.videos?.filter(v => v._id !== videoId)`
   throws: `v._id` on a `null` entry, or `.filter` on a `videos` that is
   present, not `null`, and not a list. Otherwise the filtered list, `[]` when
   there is none.
   */
  function Recommended(o: Outcome, videoId: string): (r: Option<seq<Json>>)
    ensures r.Some? ==> Confirmed(Http.Settle(o))
    ensures Confirmed(Http.Settle(o)) ==> (r.None? <==>
      var v := Path(o.response.body, ["data", "videos"]);
      v.Some? && v.value != JNull && (v.value.JArr? ==> JNull in v.value.items))
    // the video being watched is never recommended
    ensures r.Some? ==> forall i :: 0 <= i < |r.value| ==> IdOf(r.value[i]) != IdIs(videoId)
    // every other fetched video is, and nothing else
    ensures r.Some? ==> forall i :: 0 <= i < |Videos(o.response.body)| && IdOf(Videos(o.response.body)[i]) != IdIs(videoId) ==> Videos(o.response.body)[i] in r.value
    ensures r.Some? ==> forall x :: x in r.value ==> x in Videos(o.response.body)
    ensures r.Some? ==> |r.value| == |Videos(o.response.body)| - Count(Videos(o.response.body), IdOf, IdIs(videoId))
    // no list in the body: nothing to recommend
    ensures r.Some? && !(Path(o.response.body, ["data", "videos"]).Some? && Path(o.response.body, ["data", "videos"]).value.JArr?) ==> r.value == []
  {
    match o
    case Throw(_) => None
    case Reply(res) =>
      if !Ok(res) || res.body.None? then None
      else match Path(res.body, ["data", "videos"])
        case None => Some([])
        case Some(JNull) => Some([])
        case Some(JArr(items)) => if JNull in items then None else Some(Without(items, IdOf, IdIs(videoId)))
        case Some(_) => None
  }

  /** The recommendations keep the server's order. */
  lemma RecommendedKeepsOrder(o: Outcome, videoId: string)
    ensures Recommended(o, videoId).Some? ==> Subsequence(Recommended(o, videoId).value, Videos(o.response.body))
  {
    if Recommended(o, videoId).Some? {
      WithoutIsSubsequence(Videos(o.response.body), IdOf, IdIs(videoId));
    }
  }

  // ---------------------------------------------------------------------------
  // Like / dislike

  /** The four values a like or dislike response carries in `data.data`; any may be undefined. */
  datatype Reaction = Reaction(totalLikes: Option<Json>, totalDislikes: Option<Json>, isLiked: Option<Json>, isDisliked: Option<Json>)

  /**
   The four reads `data.data.totalLikes` and so on in a confirmed response,
   or `None` when they throw: on a failed request, and when `data.data` is
   `null` or undefined. On any other `data.data` that is not an object
   (a number, a string, a list) every read is undefined.
   */
  function ReactionOf(r: Result): (x: Option<Reaction>)
    ensures x.Some? ==> Confirmed(r)
    ensures x.Some? <==>
      Confirmed(r) && Get(r.response.body, "data").Some? && Get(r.response.body, "data").value != JNull
    ensures x.Some? ==>
      x.value == Reaction(
        Path(r.response.body, ["data", "totalLikes"]), Path(r.response.body, ["data", "totalDislikes"]),
        Path(r.response.body, ["data", "isLiked"]), Path(r.response.body, ["data", "isDisliked"]))
  {
    if !Confirmed(r) then None
    else
      var body := r.response.body;
      PathPair(body, "data", "totalLikes");
      PathPair(body, "data", "totalDislikes");
      PathPair(body, "data", "isLiked");
      PathPair(body, "data", "isDisliked");
      match Get(body, "data")
      case None => None
      case Some(JNull) => None
      case Some(JObj(d)) => Some(Reaction(Lookup(d, "totalLikes"), Lookup(d, "totalDislikes"), Lookup(d, "isLiked"), Lookup(d, "isDisliked")))
      case Some(_) => Some(Reaction(None, None, None, None))
  }

  const ReactionKeys: set<string> := {"likes", "dislikes", "isLiked", "isDisliked"}

  /**
   `{...prev.likes, count}`: the counter object with its `count` replaced.
   Every other property is what the spread gives, so a `likes` that is a list
   of user ids keeps them under the index names.
   */
  function Counter(prev: Option<Json>, count: Option<Json>): (r: Json)
    ensures r.JObj?
    ensures Lookup(r.fields, "count") == count
    ensures forall k :: k != "count" ==> Lookup(r.fields, k) == Lookup(FieldsOf(prev), k)
  {
    JObj(Assign(FieldsOf(prev), "count", count))
  }

  /** A `likes` list of one user id spreads to property "0" beside the new count. */
  lemma CounterOverList()
    ensures Counter(Some(JArr([JStr("u1")])), Some(JNum(2))).fields == map["0" := JStr("u1"), "count" := JNum(2)]
  {
    var prev := Some(JArr([JStr("u1")]));
    SpreadKeys(prev);
    var f := FieldsOf(prev);
    assert Text.Digits(0) == "0";
    assert f == map["0" := JStr("u1")];
    LookupExtensional(Counter(prev, Some(JNum(2))).fields, map["0" := JStr("u1"), "count" := JNum(2)]);
  }

  /**
   The `setVideo(prev => ...)` update after a like or a dislike: the two
   counts and the two flags are taken from the response, everything else
   about the video, including the other fields of `likes` and `dislikes`,
   stays as it was.
   */
  function ApplyReaction(video: map<string, Json>, x: Reaction): (v: map<string, Json>)
    ensures Lookup(v, "likes") == Some(Counter(Lookup(video, "likes"), x.totalLikes))
    ensures Lookup(v, "dislikes") == Some(Counter(Lookup(video, "dislikes"), x.totalDislikes))
    ensures Lookup(v, "isLiked") == x.isLiked
    ensures Lookup(v, "isDisliked") == x.isDisliked
    ensures forall k :: k !in ReactionKeys ==> Lookup(v, k) == Lookup(video, k)
  {
    var counted := video["likes" := Counter(Lookup(video, "likes"), x.totalLikes)]["dislikes" := Counter(Lookup(video, "dislikes"), x.totalDislikes)];
    Assign(Assign(counted, "isLiked", x.isLiked), "isDisliked", x.isDisliked)
  }

  /** A counter rewritten twice keeps only the second count. */
  lemma CounterTwice(prev: Option<Json>, a: Option<Json>, b: Option<Json>)
    ensures Counter(Some(Counter(prev, a)), b) == Counter(prev, b)
  {
    AssignTwice(FieldsOf(prev), "count", a, b);
  }

  /** Replies applied one after the other: the last one decides every field it touches. */
  lemma {:induction false} LastReactionWins(video: map<string, Json>, a: Reaction, b: Reaction)
    ensures ApplyReaction(ApplyReaction(video, a), b) == ApplyReaction(video, b)
  {
    var once := ApplyReaction(video, a);
    var p, q := ApplyReaction(once, b), ApplyReaction(video, b);
    forall k ensures Lookup(p, k) == Lookup(q, k) {
      SameReadAfterReaction(video, a, b, k);
    }
    LookupExtensional(p, q);
  }

  /** One property of the video, read after two replies and after the second alone. */
  lemma SameReadAfterReaction(video: map<string, Json>, a: Reaction, b: Reaction, k: string)
    ensures Lookup(ApplyReaction(ApplyReaction(video, a), b), k) == Lookup(ApplyReaction(video, b), k)
  {
    var once := ApplyReaction(video, a);
    if k == "likes" {
      assert Lookup(once, "likes") == Some(Counter(Lookup(video, "likes"), a.totalLikes));
      CounterTwice(Lookup(video, "likes"), a.totalLikes, b.totalLikes);
    } else if k == "dislikes" {
      assert Lookup(once, "dislikes") == Some(Counter(Lookup(video, "dislikes"), a.totalDislikes));
      CounterTwice(Lookup(video, "dislikes"), a.totalDislikes, b.totalDislikes);
    } else if k !in ReactionKeys {
      assert Lookup(once, k) == Lookup(video, k);
    }
  }

  /** Applying the same reply twice is applying it once. */
  lemma ReactionIdempotent(video: map<string, Json>, x: Reaction)
    ensures ApplyReaction(ApplyReaction(video, x), x) == ApplyReaction(video, x)
  {
    LastReactionWins(video, x, x);
  }

  datatype Button = Like | Dislike

  /** The video on screen and the two in-flight flags. */
  datatype Reactions = Reactions(video: map<string, Json>, likeLoading: bool, dislikeLoading: bool)

  function Loading(s: Reactions, b: Button): bool {
    match b
    case Like => s.likeLoading
    case Dislike => s.dislikeLoading
  }

  function SetLoading(s: Reactions, b: Button, on: bool): (r: Reactions)
    ensures Loading(r, b) == on
    ensures Loading(r, if b == Like then Dislike else Like) == Loading(s, if b == Like then Dislike else Like)
    ensures r.video == s.video
  {
    match b
    case Like => s.(likeLoading := on)
    case Dislike => s.(dislikeLoading := on)
  }

  /** The click: a request goes out only when none is in flight for that button, and the flag goes up. */
  function Press(s: Reactions, b: Button): (h: Handled<Reactions>)
    ensures h.sent <==> !Loading(s, b)
    ensures !h.sent ==> h.state == s
    ensures h.sent ==> h.state == SetLoading(s, b, true)
  {
    if Loading(s, b) then Handled(s, false) else Handled(SetLoading(s, b, true), true)
  }

  /** The `finally` and the update: the flag drops, and the reply is applied unless its reads throw. */
  function Settle(s: Reactions, b: Button, r: Result): (s': Reactions)
    ensures !Loading(s', b)
    ensures ReactionOf(r).Some? ==> s'.video == ApplyReaction(s.video, ReactionOf(r).value)
    ensures ReactionOf(r).None? ==> s'.video == s.video
    ensures Loading(s', if b == Like then Dislike else Like) == Loading(s, if b == Like then Dislike else Like)
  {
    var down := SetLoading(s, b, false);
    match ReactionOf(r)
    case Some(x) => down.(video := ApplyReaction(s.video, x))
    case None => down
  }

  /** A second click before the first reply sends nothing and changes nothing. */
  lemma DoubleClickSendsOnce(s: Reactions, b: Button)
    requires Press(s, b).sent
    ensures !Press(Press(s, b).state, b).sent
    ensures Press(Press(s, b).state, b).state == Press(s, b).state
  {
  }

  /** Once the reply has settled the button works again, whatever the reply was. */
  lemma SettleReenables(s: Reactions, b: Button, r: Result)
    ensures Press(Settle(Press(s, b).state, b, r), b).sent
  {
  }

  // ---------------------------------------------------------------------------
  // Comments

  /** The comment list with the add form and the edit form. */
  datatype Comments = Comments(list: seq<Json>, draft: string, editingId: Option<string>, editDraft: string)

  /** `data.data`, standing in JSON `null` for `undefined`. */
  function DataOf(body: Json): Json {
    Get(Some(body), "data").GetOr(JNull)
  }

  /**
   `handleAddComment`: a blank draft sends nothing; a confirmed reply puts the
   new comment first and clears the draft. A confirmed reply whose body is
   JSON `null` makes the list updater throw when it runs, so the list stays
   as it was, while the draft is still cleared.
   */
  function AddComment(s: Comments, r: Result): (h: Handled<Comments>)
    ensures h.sent <==> Trim(s.draft) != ""
    ensures h.sent && Confirmed(r) && r.response.body.value != JNull ==>
      && |h.state.list| == |s.list| + 1
      && h.state.list[0] == DataOf(r.response.body.value)
      && h.state.list[1..] == s.list
      && h.state.draft == ""
      && h.state.editingId == s.editingId && h.state.editDraft == s.editDraft
    ensures h.sent && Confirmed(r) && r.response.body.value == JNull ==> h.state == s.(draft := "")
    ensures !(h.sent && Confirmed(r)) ==> h.state == s
  {
    if Trim(s.draft) == "" then Handled(s, false)
    else if !Confirmed(r) then Handled(s, true)
    else if r.response.body.value == JNull then Handled(s.(draft := ""), true)
    else Handled(s.(list := [DataOf(r.response.body.value)] + s.list, draft := ""), true)
  }

  /** A draft of spaces, tabs and newlines only is blank: nothing is sent. */
  lemma WhitespaceDraftSendsNothing(s: Comments, r: Result)
    requires forall i :: 0 <= i < |s.draft| ==> IsSpace(s.draft[i])
    ensures AddComment(s, r) == Handled(s, false)
  {
    BlankIffAllSpace(s.draft);
  }

  /** `{...c, content}` on the comment with the id, any other comment as it is. */
  function Rename(c: Json, id: string, content: string): (r: Json)
    ensures IdOf(r) == IdOf(c)
    ensures IdOf(c) == IdIs(id) ==> r.JObj? && Lookup(r.fields, "content") == Some(JStr(content))
    ensures IdOf(c) == IdIs(id) ==> forall k :: k != "content" ==> Lookup(r.fields, k) == Lookup(c.fields, k)
    ensures IdOf(c) != IdIs(id) ==> r == c
  {
    if IdOf(c) == IdIs(id) then JObj(c.fields["content" := JStr(content)]) else c
  }

  /** `prev.map(c => c._id === id ? {...c, content} : c)` */
  function EditAll(s: seq<Json>, id: string, content: string): (r: seq<Json>)
    ensures |r| == |s|
    ensures forall i :: 0 <= i < |s| ==> r[i] == Rename(s[i], id, content)
  {
    seq(|s|, i requires 0 <= i < |s| => Rename(s[i], id, content))
  }

  /** `handleEditComment(id)`: a blank edit sends nothing; a confirmed reply renames the matching comments and closes the editor. */
  function EditComment(s: Comments, id: string, r: Result): (h: Handled<Comments>)
    ensures h.sent <==> Trim(s.editDraft) != ""
    ensures h.sent && Confirmed(r) ==>
      && h.state.list == EditAll(s.list, id, s.editDraft)
      && h.state.editingId == None && h.state.editDraft == ""
      && h.state.draft == s.draft
    ensures !(h.sent && Confirmed(r)) ==> h.state == s
  {
    if Trim(s.editDraft) == "" then Handled(s, false)
    else if Confirmed(r) then Handled(s.(list := EditAll(s.list, id, s.editDraft), editingId := None, editDraft := ""), true)
    else Handled(s, true)
  }

  /** An edit keeps every comment in its place with its id; only the content of the matching ones changes. */
  lemma EditKeepsIds(s: seq<Json>, id: string, content: string)
    ensures |EditAll(s, id, content)| == |s|
    ensures forall i :: 0 <= i < |s| ==> IdOf(EditAll(s, id, content)[i]) == IdOf(s[i])
    ensures forall i :: 0 <= i < |s| && IdOf(s[i]) != IdIs(id) ==> EditAll(s, id, content)[i] == s[i]
  {
  }

  /** Editing twice keeps the second text. */
  lemma {:induction false} LastEditWins(s: seq<Json>, id: string, a: string, b: string)
    ensures EditAll(EditAll(s, id, a), id, b) == EditAll(s, id, b)
  {
    var once := EditAll(s, id, a);
    forall i | 0 <= i < |s| ensures EditAll(once, id, b)[i] == EditAll(s, id, b)[i] {
      if IdOf(s[i]) == IdIs(id) {
        var c := s[i];
        assert once[i] == JObj(c.fields["content" := JStr(a)]);
        assert c.fields["content" := JStr(a)]["content" := JStr(b)] == c.fields["content" := JStr(b)];
      }
    }
  }

  /** Deleting a comment after editing it leaves what deleting it straight away leaves. */
  lemma {:induction false} DeleteAfterEdit(s: seq<Json>, id: string, content: string)
    ensures Without(EditAll(s, id, content), IdOf, IdIs(id)) == Without(s, IdOf, IdIs(id))
    decreases |s|
  {
    if |s| > 0 {
      var e := EditAll(s, id, content);
      assert e[1..] == EditAll(s[1..], id, content);
      DeleteAfterEdit(s[1..], id, content);
      assert IdOf(e[0]) == IdOf(s[0]);
      if IdOf(s[0]) != IdIs(id) {
        assert e[0] == s[0];
      }
    }
  }

  /** `handleDeleteComment(id)`: always sent; a confirmed reply removes exactly the comments with the id. */
  function DeleteComment(s: Comments, id: string, r: Result): (h: Handled<Comments>)
    ensures h.sent
    ensures Confirmed(r) ==> h.state == s.(list := Without(s.list, IdOf, IdIs(id)))
    ensures !Confirmed(r) ==> h.state == s
  {
    if Confirmed(r) then Handled(s.(list := Without(s.list, IdOf, IdIs(id))), true)
    else Handled(s, true)
  }

  /** Deleting a comment that was just added, under an id nobody else has, restores the list. */
  lemma {:induction false} DeleteUndoesAdd(s: Comments, r: Result, id: string, r2: Result)
    requires AddComment(s, r).sent && Confirmed(r)
    requires IdOf(DataOf(r.response.body.value)) == IdIs(id)
    requires forall i :: 0 <= i < |s.list| ==> IdOf(s.list[i]) != IdIs(id)
    requires Confirmed(r2)
    ensures DeleteComment(AddComment(s, r).state, id, r2).state.list == s.list
  {
    var added := AddComment(s, r).state.list;
    assert added[1..] == s.list;
    WithoutAbsent(s.list, IdOf, IdIs(id));
  }

  // ---------------------------------------------------------------------------
  // Subscribe

  /** The viewer, the subscription flag, the counter and the in-flight flag. */
  datatype Subscription = Subscription(user: Option<Json>, subscribed: bool, count: int, loading: bool)

  /** `channel.subscribersCount || 0`, for a numeric count. */
  function InitialCount(v: Option<Json>): (n: int)
    ensures Truthy(v) && v.value.JNum? ==> n == v.value.n
    ensures !Truthy(v) ==> n == 0
  {
    match v
    case Some(JNum(n)) => n
    case _ => 0
  }

  const SubscribePath: string := "/subscription/subscribe?channelId="
  const UnsubscribePath: string := "/subscription/unSubscribe?channelId="

  /** The request a click sends: a cookie-carrying POST to `unSubscribe` exactly when the viewer is subscribed at the time of the click. */
  function SubscriptionRequest(base: string, channelId: string, subscribed: bool): (q: Request)
    ensures subscribed <==> q.url == base + UnsubscribePath + channelId
    ensures !subscribed <==> q.url == base + SubscribePath + channelId
    ensures q.options == map["method" := Str("POST"), "credentials" := Include]
  {
    var on := base + SubscribePath + channelId;
    var off := base + UnsubscribePath + channelId;
    assert on[|base| + 14] == 's' && off[|base| + 14] == 'u';
    Request(if subscribed then off else on, map["method" := Str("POST"), "credentials" := Include])
  }

  /** The click: nothing without a logged-in viewer, nothing while a request is in flight; otherwise the request for the current flag. */
  function PressSubscribe(s: Subscription, base: string, channelId: string): (h: Submitted<Subscription>)
    ensures h.sent <==> Truthy(s.user) && !s.loading
    ensures !h.sent ==> h.state == s
    ensures h.sent ==> h.state == s.(loading := true)
    ensures h.sent ==> h.request == Some(SubscriptionRequest(base, channelId, s.subscribed))
  {
    if !Truthy(s.user) || s.loading then Submitted(s, None)
    else Submitted(s.(loading := true), Some(SubscriptionRequest(base, channelId, s.subscribed)))
  }

  /** The reply: only a confirmed one flips the flag and moves the counter, and never below zero. */
  function SettleSubscribe(s: Subscription, r: Result): (s': Subscription)
    ensures !s'.loading && s'.user == s.user
    ensures Confirmed(r) ==> s'.subscribed == !s.subscribed
    ensures Confirmed(r) && s.subscribed ==> s'.count == if s.count - 1 < 0 then 0 else s.count - 1
    ensures Confirmed(r) && !s.subscribed ==> s'.count == s.count + 1
    ensures !Confirmed(r) ==> s'.subscribed == s.subscribed && s'.count == s.count
    ensures s.count >= 0 ==> s'.count >= 0
    ensures Confirmed(r) && s.subscribed ==> s'.count >= 0
  {
    if !Confirmed(r) then s.(loading := false)
    else if s.subscribed then s.(subscribed := false, count := if s.count - 1 < 0 then 0 else s.count - 1, loading := false)
    else s.(subscribed := true, count := s.count + 1, loading := false)
  }

  /** One full click: press, then settle with the reply if a request went out. */
  function Subscribe(s: Subscription, base: string, channelId: string, r: Result): (h: Submitted<Subscription>)
    ensures h.request == PressSubscribe(s, base, channelId).request
    ensures !h.sent ==> h.state == s
    ensures s.count >= 0 ==> h.state.count >= 0
  {
    var p := PressSubscribe(s, base, channelId);
    if p.sent then Submitted(SettleSubscribe(p.state, r), p.request) else p
  }

  /**
   After a confirmed click the next click posts to the other endpoint; after
   a failed one it posts to the same endpoint again.
   */
  lemma ClicksAlternateEndpoints(s: Subscription, base: string, channelId: string, r: Result)
    requires Truthy(s.user) && !s.loading
    ensures var next := PressSubscribe(Subscribe(s, base, channelId, r).state, base, channelId).request;
      && (Confirmed(r) ==> next == Some(SubscriptionRequest(base, channelId, !s.subscribed)))
      && (!Confirmed(r) ==> next == Some(SubscriptionRequest(base, channelId, s.subscribed)))
  {
  }

  /** Subscribing and then unsubscribing, both confirmed, restores the flag and the counter. */
  lemma SubscribeRoundTrip(s: Subscription, base: string, channelId: string, r1: Result, r2: Result)
    requires Truthy(s.user) && !s.loading && !s.subscribed && s.count >= 0
    requires Confirmed(r1) && Confirmed(r2)
    ensures Subscribe(Subscribe(s, base, channelId, r1).state, base, channelId, r2).state == s
  {
  }

  /** Unsubscribing and subscribing again restores the counter unless it was already at zero, where it ends one higher. */
  lemma UnsubscribeRoundTrip(s: Subscription, base: string, channelId: string, r1: Result, r2: Result)
    requires Truthy(s.user) && !s.loading && s.subscribed
    requires Confirmed(r1) && Confirmed(r2)
    ensures var t := Subscribe(Subscribe(s, base, channelId, r1).state, base, channelId, r2).state;
            t.subscribed && t.count == (if s.count >= 1 then s.count else 1)
  {
  }
}
