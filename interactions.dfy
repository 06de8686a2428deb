/**
 * The article interactions of app.js: like counts and comments kept in
 * memory, persisted through `lsSet` after every change, and the "recent
 * comments" panel.
 */
module Interactions {
  import opened Wrappers
  import opened Text
  import Storage

  const LIKES_KEY: string := "nlm_likes"
  const COMMENTS_KEY: string := "nlm_comments"

  /** How many comments the recent-comments panel shows. */
  const RECENT_LIMIT: nat := 8

  /** The text the panel shows when there is no comment. */
  const NO_COMMENTS: string := "Aucun commentaire pour l'instant."

  /** One entry of `commentsStore`; `date` is the ISO text of the click time. */
  datatype Comment = Comment(articleId: string, text: string, date: string)

  /** The JSON value persisted under each key. */
  datatype Blob = LikesBlob(counts: map<string, nat>) | CommentsBlob(items: seq<Comment>)

  // ---------------------------------------------------------------------
  // Button ids

  /** `btn.dataset.id ?? ('a_' + index)`: a button keeps its `data-id` (even
      an empty one); otherwise it is named after its position in its class. */
  function ButtonId(dataId: Option<string>, index: nat): (id: string)
    ensures dataId.Some? ==> id == dataId.value
    ensures dataId.None? ==> |id| > 2 && id[..2] == "a_" && ParseDecimal(id[2..]) == index
    ensures dataId.None? ==> forall k :: 2 <= k < |id| ==> '0' <= id[k] <= '9'
    ensures dataId.None? ==> |id| == 3 || id[2] != '0'
  {
    match dataId
    case Some(given) => given
    case None =>
      var id := "a_" + Decimal(index);
      assert id[2..] == Decimal(index);
      assert forall k :: 2 <= k < |id| ==> id[k] == Decimal(index)[k - 2];
      DecimalRoundTrip(index);
      id
  }

  /** The default id is the only `a_` name whose digits, written without a
      leading zero, read as the button's index. */
  lemma DefaultIdUnique(id: string, index: nat)
    requires |id| > 2 && id[..2] == "a_" && (|id| == 3 || id[2] != '0')
    requires forall k :: 2 <= k < |id| ==> '0' <= id[k] <= '9'
    requires ParseDecimal(id[2..]) == index
    ensures id == ButtonId(None, index)
  {
    var digits := id[2..];
    assert forall k :: 0 <= k < |digits| ==> digits[k] == id[k + 2];
    CanonicalDecimal(digits);
    assert id == id[..2] + digits;
  }

  /** Buttons of one class without `data-id` never share an id. */
  lemma DefaultIdsDistinct(i: nat, j: nat)
    requires i != j
    ensures ButtonId(None, i) != ButtonId(None, j)
  {
  }

  // ---------------------------------------------------------------------
  // Likes

  /** `likesStore[id] || 0`. */
  function Count(likes: map<string, nat>, id: string): nat
  {
    if id in likes then likes[id] else 0
  }

  /** The like map after one click on `id`. */
  function Liked(likes: map<string, nat>, id: string): (r: map<string, nat>)
    ensures Count(r, id) == Count(likes, id) + 1
    ensures r - {id} == likes - {id}
    ensures r.Keys == likes.Keys + {id}
  {
    likes[id := Count(likes, id) + 1]
  }

  /** The like map after the clicks `ids`, in order. */
  function ApplyClicks(likes: map<string, nat>, ids: seq<string>): map<string, nat>
  {
    if ids == [] then likes else Liked(ApplyClicks(likes, ids[..|ids| - 1]), ids[|ids| - 1])
  }

  /** Each click adds exactly one to its own article and nothing elsewhere:
      after any run of clicks, a count has grown by the number of clicks on it. */
  lemma {:induction false} ClicksCount(likes: map<string, nat>, ids: seq<string>, k: string)
    ensures Count(ApplyClicks(likes, ids), k) == Count(likes, k) + multiset(ids)[k]
  {
    if ids != [] {
      var init, last := ids[..|ids| - 1], ids[|ids| - 1];
      assert ids == init + [last];
      ClicksCount(likes, init, k);
      var m := ApplyClicks(likes, init);
      if k != last {
        assert k in Liked(m, last) <==> k in m;
        if k in m { assert Liked(m, last)[k] == (Liked(m, last) - {last})[k]; }
      }
    }
  }

  // ---------------------------------------------------------------------
  // Comments

  /** The guard `text && text.trim()` on the prompt's answer (null when cancelled). */
  predicate Accepted(answer: Option<string>) {
    answer.Some? && answer.value != "" && Trim(answer.value) != ""
  }

  /** The guard rejects exactly a cancelled prompt and whitespace-only text
      (the empty string included). */
  lemma AcceptedIff(answer: Option<string>)
    ensures Accepted(answer) <==> answer.Some? && !AllSpace(answer.value)
  {
  }

  /** `commentsStore` after one comment-button click. */
  function WithComment(comments: seq<Comment>, id: string, answer: Option<string>, date: string): seq<Comment>
  {
    if Accepted(answer) then comments + [Comment(id, Trim(answer.value), date)] else comments
  }

  /** A cancelled, empty or whitespace-only answer leaves the comments as they
      were; any other answer appends exactly one record, carrying the button's
      id, the trimmed (non-empty) text and the date, after the unchanged
      earlier records. */
  lemma CommentAppended(comments: seq<Comment>, id: string, answer: Option<string>, date: string)
    ensures var r := WithComment(comments, id, answer, date);
            && (answer.None? || AllSpace(answer.value) ==> r == comments)
            && (answer.Some? && !AllSpace(answer.value) ==>
                  && |r| == |comments| + 1
                  && r[..|comments|] == comments
                  && r[|comments|].articleId == id && r[|comments|].date == date
                  && r[|comments|].text == Trim(answer.value)
                  && r[|comments|].text != "")
  {
    AcceptedIff(answer);
    var r := WithComment(comments, id, answer, date);
    if Accepted(answer) {
      assert r[..|comments|] == comments;
    }
  }

  /** The text a comment is stored with has no whitespace left at either end. */
  lemma AddedTextIsTrimmed(comments: seq<Comment>, id: string, answer: Option<string>, date: string)
    requires Accepted(answer)
    ensures var r := WithComment(comments, id, answer, date);
            Trim(r[|comments|].text) == r[|comments|].text
  {
    TrimIdempotent(answer.value);
  }

  /** What the recent-comments panel shows. */
  datatype Panel = Placeholder(message: string) | Recent(items: seq<Comment>)

  function Reverse<T>(s: seq<T>): (r: seq<T>)
    ensures |r| == |s|
    ensures forall i :: 0 <= i < |s| ==> r[i] == s[|s| - 1 - i]
  {
    if s == [] then [] else [s[|s| - 1]] + Reverse(s[..|s| - 1])
  }

  /** `commentsStore.slice(-8)`: the last `RECENT_LIMIT` entries. */
  function LastFew(comments: seq<Comment>): seq<Comment>
  {
    comments[if |comments| > RECENT_LIMIT then |comments| - RECENT_LIMIT else 0..]
  }

  /** The selection of `renderCommentsPanel`: the placeholder when there is no
      comment, otherwise `commentsStore.slice(-8).reverse()`. */
  function RecentComments(comments: seq<Comment>): (p: Panel)
    ensures p.Placeholder? <==> comments == []
    ensures p.Placeholder? ==> p.message == NO_COMMENTS
    ensures p.Recent? ==>
              && |p.items| == (if |comments| < RECENT_LIMIT then |comments| else RECENT_LIMIT)
              && forall i :: 0 <= i < |p.items| ==> p.items[i] == comments[|comments| - 1 - i]
  {
    if comments == [] then Placeholder(NO_COMMENTS) else Recent(Reverse(LastFew(comments)))
  }

  /** A comment just added is the first one the panel shows, and the rest
      move down by one. */
  lemma NewestFirst(comments: seq<Comment>, c: Comment)
    ensures RecentComments(comments + [c]).Recent?
    ensures RecentComments(comments + [c]).items[0] == c
    ensures forall i :: 1 <= i < |RecentComments(comments + [c]).items| ==>
              RecentComments(comments + [c]).items[i] == RecentComments(comments).items[i - 1]
  {
  }

  // ---------------------------------------------------------------------
  // Loading

  /** `lsGet(LS_KEYS.LIKES, {})`. */
  function LoadedLikes(disk: Storage.Disk<Blob>): map<string, nat>
  {
    match Storage.LsGet(disk, LIKES_KEY, LikesBlob(map[]))
    case LikesBlob(counts) => counts
    case CommentsBlob(_) => map[]
  }

  /** `lsGet(LS_KEYS.COMMENTS, [])`. */
  function LoadedComments(disk: Storage.Disk<Blob>): seq<Comment>
  {
    match Storage.LsGet(disk, COMMENTS_KEY, CommentsBlob([]))
    case CommentsBlob(items) => items
    case LikesBlob(_) => []
  }

  /** Writing the comments never changes the likes a later load reads. */
  lemma CommentsWriteKeepsLikes(disk: Storage.Disk<Blob>, items: seq<Comment>, accepted: bool)
    ensures LoadedLikes(Storage.LsSet(disk, COMMENTS_KEY, CommentsBlob(items), accepted)) == LoadedLikes(disk)
  {
    Storage.WriteLeavesOtherKeys(disk, COMMENTS_KEY, LIKES_KEY, CommentsBlob(items), accepted, LikesBlob(map[]));
  }

  /** Writing the likes never changes the comments a later load reads. */
  lemma LikesWriteKeepsComments(disk: Storage.Disk<Blob>, counts: map<string, nat>, accepted: bool)
    ensures LoadedComments(Storage.LsSet(disk, LIKES_KEY, LikesBlob(counts), accepted)) == LoadedComments(disk)
  {
    Storage.WriteLeavesOtherKeys(disk, LIKES_KEY, COMMENTS_KEY, LikesBlob(counts), accepted, CommentsBlob([]));
  }

  /** The module-level `likesStore` and `commentsStore` with the storage
      they are written back to. */
  class InteractionStore {
    var likes: map<string, nat>
    var comments: seq<Comment>
    ghost var disk: Storage.Disk<Blob>

    /** Page load: both collections read once from storage. */
    constructor Load(stored: Storage.Disk<Blob>)
      ensures disk == stored
      ensures likes == LoadedLikes(stored) && comments == LoadedComments(stored)
    {
      likes := LoadedLikes(stored);
      comments := LoadedComments(stored);
      disk := stored;
    }

    /** The like-button handler: one more like for `id`, then `lsSet` of the
        whole map; `writeOk` is whether the browser accepted the write.
        Returns the count the button now shows. */
    method LikeClick(id: string, writeOk: bool) returns (shown: nat)
      modifies this
      ensures likes == Liked(old(likes), id)
      ensures shown == Count(old(likes), id) + 1 && shown == likes[id]
      ensures comments == old(comments)
      ensures disk == Storage.LsSet(old(disk), LIKES_KEY, LikesBlob(likes), writeOk)
      ensures writeOk ==> LoadedLikes(disk) == likes
      ensures LoadedComments(disk) == LoadedComments(old(disk))
    {
      likes := likes[id := Count(likes, id) + 1];
      LikesWriteKeepsComments(disk, likes, writeOk);
      disk := Storage.LsSet(disk, LIKES_KEY, LikesBlob(likes), writeOk);
      shown := likes[id];
    }

    /** The comment-button handler: `answer` is what `prompt` returned (None
        when cancelled), `date` the ISO time of the click. */
    method AddComment(id: string, answer: Option<string>, date: string, writeOk: bool) returns (added: bool)
      modifies this
      ensures added == Accepted(answer)
      ensures comments == WithComment(old(comments), id, answer, date)
      ensures likes == old(likes)
      ensures !added ==> disk == old(disk)
      ensures added ==> disk == Storage.LsSet(old(disk), COMMENTS_KEY, CommentsBlob(comments), writeOk)
      ensures added && writeOk ==> LoadedComments(disk) == comments
      ensures LoadedLikes(disk) == LoadedLikes(old(disk))
    {
      added := Accepted(answer);
      if added {
        comments := comments + [Comment(id, Trim(answer.value), date)];
        CommentsWriteKeepsLikes(disk, comments, writeOk);
        disk := Storage.LsSet(disk, COMMENTS_KEY, CommentsBlob(comments), writeOk);
      }
    }

    /** What `renderCommentsPanel` shows for the current comments. */
    method RenderCommentsPanel() returns (p: Panel)
      ensures p.Placeholder? <==> comments == []
      ensures p == RecentComments(comments)
    {
      p := RecentComments(comments);
    }
  }
}
