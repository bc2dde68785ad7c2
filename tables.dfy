/** The `user` and `image` tables as sequences of rows, and the queries the
    route handlers run on them: `filter_by(...).first()`, the ownership
    filter `filter_by(user_id=...)` and `order_by(created_at.desc())`. */
module Tables {
  import opened Records
  import opened Sequences

  // ---------------------------------------------------------------- users

  predicate HasUserId(users: seq<User>, id: nat) {
    exists k :: 0 <= k < |users| && users[k].id == id
  }

  predicate HasUsername(users: seq<User>, username: string) {
    exists k :: 0 <= k < |users| && users[k].username == username
  }

  predicate HasEmail(users: seq<User>, email: string) {
    exists k :: 0 <= k < |users| && users[k].email == email
  }

  /** The primary key and the two `unique=True` columns of `User`. */
  predicate UniqueUsers(users: seq<User>) {
    forall i, j :: 0 <= i < j < |users| ==>
      users[i].id != users[j].id &&
      users[i].username != users[j].username &&
      users[i].email != users[j].email
  }

  /** `User.query.filter_by(username=username).first()`. */
  function FindUserByName(users: seq<User>, username: string): (r: Option<nat>)
    ensures r.Some? ==> r.value < |users| && users[r.value].username == username
    ensures r.None? <==> !HasUsername(users, username)
  {
    FirstIndex(users, (u: User) => u.username == username)
  }

  /** `User.query.filter_by(email=email).first()`. */
  function FindUserByEmail(users: seq<User>, email: string): (r: Option<nat>)
    ensures r.Some? ==> r.value < |users| && users[r.value].email == email
    ensures r.None? <==> !HasEmail(users, email)
  {
    FirstIndex(users, (u: User) => u.email == email)
  }

  /** Appending a row whose id, username and email are all new keeps every
      key of the table unique. */
  lemma RegisterKeepsUnique(users: seq<User>, u: User)
    requires UniqueUsers(users)
    requires !HasUserId(users, u.id) && !HasUsername(users, u.username) && !HasEmail(users, u.email)
    ensures UniqueUsers(users + [u])
    ensures HasUsername(users + [u], u.username) && HasEmail(users + [u], u.email)
  {
    var t := users + [u];
    forall i, j | 0 <= i < j < |t|
      ensures t[i].id != t[j].id && t[i].username != t[j].username && t[i].email != t[j].email
    {
      if j == |users| {
        assert t[i] == users[i];
      }
    }
    assert t[|users|] == u;
  }

  // --------------------------------------------------------------- images

  /** `filter_by(id=image_id, user_id=current_user.id)`: a row matches only
      when both its id and its owner agree. */
  predicate IsOwned(img: Image, imageId: nat, userId: nat) {
    img.id == imageId && img.userId == userId
  }

  predicate UniqueImageIds(images: seq<Image>) {
    forall i, j :: 0 <= i < j < |images| ==> images[i].id != images[j].id
  }

  /** Every image belongs to a registered user (the `user.id` foreign key). */
  predicate OwnersExist(users: seq<User>, images: seq<Image>) {
    forall k :: 0 <= k < |images| ==> HasUserId(users, images[k].userId)
  }

  /** `Image.query.filter_by(id=image_id, user_id=user_id).first()`. */
  function FindOwned(images: seq<Image>, imageId: nat, userId: nat): (r: Option<nat>)
    ensures r.Some? ==> r.value < |images| && IsOwned(images[r.value], imageId, userId)
    ensures r.Some? ==> forall j :: 0 <= j < r.value ==> !IsOwned(images[j], imageId, userId)
    ensures r.None? <==> forall j :: 0 <= j < |images| ==> !IsOwned(images[j], imageId, userId)
  {
    FirstIndex(images, (img: Image) => IsOwned(img, imageId, userId))
  }

  /** The lookup depends only on the id and owner columns: two tables that
      agree on which rows match give the same answer. */
  lemma FindOwnedSameMatches(a: seq<Image>, b: seq<Image>, imageId: nat, userId: nat)
    requires |a| == |b|
    requires forall j :: 0 <= j < |a| ==> (IsOwned(a[j], imageId, userId) <==> IsOwned(b[j], imageId, userId))
    ensures FindOwned(a, imageId, userId) == FindOwned(b, imageId, userId)
  {
    var ra, rb := FindOwned(a, imageId, userId), FindOwned(b, imageId, userId);
    if ra.Some? {
      assert IsOwned(b[ra.value], imageId, userId);
    }
    if rb.Some? {
      assert IsOwned(a[rb.value], imageId, userId);
    }
  }

  /** The table after `image.is_favorite = not image.is_favorite` on the
      caller's matching row, if there is one. */
  function Toggled(images: seq<Image>, imageId: nat, userId: nat): (r: seq<Image>)
    ensures |r| == |images|
    ensures forall j :: 0 <= j < |images| ==> r[j] == images[j].(isFavorite := r[j].isFavorite)
    ensures forall j :: 0 <= j < |images| ==>
              (r[j].isFavorite != images[j].isFavorite <==> FindOwned(images, imageId, userId) == Some(j))
    ensures forall j :: 0 <= j < |images| && !IsOwned(images[j], imageId, userId) ==> r[j] == images[j]
  {
    match FindOwned(images, imageId, userId)
    case None => images
    case Some(i) => images[i := images[i].(isFavorite := !images[i].isFavorite)]
  }

  /** Toggling the same image twice restores the table. */
  lemma {:induction false} ToggleTwiceRestores(images: seq<Image>, imageId: nat, userId: nat)
    ensures Toggled(Toggled(images, imageId, userId), imageId, userId) == images
  {
    var once := Toggled(images, imageId, userId);
    FindOwnedSameMatches(images, once, imageId, userId);
    var twice := Toggled(once, imageId, userId);
    assert forall j :: 0 <= j < |images| ==> twice[j] == images[j];
  }

  /** The table after `db.session.delete` of the caller's matching row, if
      there is one. */
  function Deleted(images: seq<Image>, imageId: nat, userId: nat): (r: seq<Image>)
    ensures FindOwned(images, imageId, userId).None? ==> r == images
    ensures FindOwned(images, imageId, userId).Some? ==>
              |r| == |images| - 1 &&
              multiset(r) + multiset{images[FindOwned(images, imageId, userId).value]} == multiset(images)
    ensures forall j :: 0 <= j < |images| && !IsOwned(images[j], imageId, userId) ==> images[j] in r
    ensures forall k :: 0 <= k < |r| ==> r[k] in images
  {
    match FindOwned(images, imageId, userId)
    case None => images
    case Some(i) =>
      assert images == images[..i] + [images[i]] + images[i + 1..];
      images[..i] + images[i + 1..]
  }

  /** With unique ids the deleted image is gone for good, and the ids of
      what remains are still unique. */
  lemma DeletedImageIsGone(images: seq<Image>, imageId: nat, userId: nat)
    requires UniqueImageIds(images)
    ensures forall k :: 0 <= k < |Deleted(images, imageId, userId)| ==>
              !IsOwned(Deleted(images, imageId, userId)[k], imageId, userId)
    ensures UniqueImageIds(Deleted(images, imageId, userId))
  {
    var r := Deleted(images, imageId, userId);
    match FindOwned(images, imageId, userId)
    case None =>
    case Some(i) =>
      assert r == images[..i] + images[i + 1..];
      forall k | 0 <= k < |r|
        ensures r[k] == images[if k < i then k else k + 1]
      {
      }
      forall k | 0 <= k < |r| ensures !IsOwned(r[k], imageId, userId) {
        var m := if k < i then k else k + 1;
        assert images[m].id != images[i].id;
      }
  }

  // -------------------------------------------------------- the invariant

  /** Keys are unique, every image has a registered owner, and the next ids
      to hand out are ahead of every key in use. */
  predicate WellFormed(users: seq<User>, images: seq<Image>, nextUserId: nat, nextImageId: nat) {
    UniqueUsers(users) && UniqueImageIds(images) && OwnersExist(users, images) &&
    (forall k :: 0 <= k < |users| ==> users[k].id < nextUserId) &&
    (forall k :: 0 <= k < |images| ==> images[k].id < nextImageId)
  }

  /** Registering a user with the next id and an unused username and email. */
  lemma UserAddedKeepsWellFormed(users: seq<User>, images: seq<Image>, nextUserId: nat,
                                 nextImageId: nat, u: User)
    requires WellFormed(users, images, nextUserId, nextImageId)
    requires u.id == nextUserId && !HasUsername(users, u.username) && !HasEmail(users, u.email)
    ensures WellFormed(users + [u], images, nextUserId + 1, nextImageId)
  {
    var t := users + [u];
    RegisterKeepsUnique(users, u);
    forall k | 0 <= k < |images| ensures HasUserId(t, images[k].userId) {
      var j :| 0 <= j < |users| && users[j].id == images[k].userId;
      assert t[j] == users[j];
    }
  }

  /** Inserting an image with the next id and a registered owner. */
  lemma ImageAddedKeepsWellFormed(users: seq<User>, images: seq<Image>, nextUserId: nat,
                                  nextImageId: nat, img: Image)
    requires WellFormed(users, images, nextUserId, nextImageId)
    requires img.id == nextImageId && HasUserId(users, img.userId)
    ensures WellFormed(users, images + [img], nextUserId, nextImageId + 1)
  {
    var t := images + [img];
    forall k | 0 <= k < |t| ensures HasUserId(users, t[k].userId) && t[k].id < nextImageId + 1 {
      if k < |images| {
        assert t[k] == images[k];
      }
    }
  }

  /** Flipping a favourite leaves every key column alone. */
  lemma ToggleKeepsWellFormed(users: seq<User>, images: seq<Image>, nextUserId: nat,
                              nextImageId: nat, imageId: nat, userId: nat)
    requires WellFormed(users, images, nextUserId, nextImageId)
    ensures WellFormed(users, Toggled(images, imageId, userId), nextUserId, nextImageId)
  {
    var t := Toggled(images, imageId, userId);
    assert forall k :: 0 <= k < |t| ==> t[k].id == images[k].id && t[k].userId == images[k].userId;
  }

  /** Deleting a row keeps what remains keyed and owned. */
  lemma DeleteKeepsWellFormed(users: seq<User>, images: seq<Image>, nextUserId: nat,
                              nextImageId: nat, imageId: nat, userId: nat)
    requires WellFormed(users, images, nextUserId, nextImageId)
    ensures WellFormed(users, Deleted(images, imageId, userId), nextUserId, nextImageId)
    ensures forall k :: 0 <= k < |Deleted(images, imageId, userId)| ==>
              !IsOwned(Deleted(images, imageId, userId)[k], imageId, userId)
  {
    DeletedImageIsGone(images, imageId, userId);
    var remaining := Deleted(images, imageId, userId);
    forall k | 0 <= k < |remaining|
      ensures HasUserId(users, remaining[k].userId) && remaining[k].id < nextImageId
    {
      var j :| 0 <= j < |images| && images[j] == remaining[k];
    }
  }

  // -------------------------------------------------------------- listing

  /** `Image.query.filter_by(user_id=user_id)`: the caller's rows, in table
      order. */
  function OwnedBy(images: seq<Image>, userId: nat): (r: seq<Image>)
    ensures forall k :: 0 <= k < |r| ==> r[k].userId == userId
  {
    if images == [] then []
    else (if images[0].userId == userId then [images[0]] else []) + OwnedBy(images[1..], userId)
  }

  /** The filter keeps every row of the caller exactly as often as the
      table holds it, and drops every other row. */
  lemma {:induction false} OwnedByKeepsCallersRows(images: seq<Image>, userId: nat)
    ensures forall img :: multiset(OwnedBy(images, userId))[img] ==
                           if img.userId == userId then multiset(images)[img] else 0
  {
    if images != [] {
      OwnedByKeepsCallersRows(images[1..], userId);
      assert images == [images[0]] + images[1..];
    }
  }

  /** Ordered by `created_at` descending. */
  predicate NewestFirst(s: seq<Image>) {
    forall i, j :: 0 <= i < j < |s| ==> s[i].createdAt >= s[j].createdAt
  }

  /** A row at least as new as the head of a newest-first sequence can go
      in front of it. */
  lemma PrependNewestFirst(y: Image, t: seq<Image>)
    requires NewestFirst(t)
    requires t != [] ==> y.createdAt >= t[0].createdAt
    ensures NewestFirst([y] + t)
  {
    var r := [y] + t;
    forall i, j | 0 <= i < j < |r| ensures r[i].createdAt >= r[j].createdAt {
      if i == 0 {
        assert r[j] == t[j - 1];
        assert t[0].createdAt >= t[j - 1].createdAt;
      } else {
        assert r[i] == t[i - 1] && r[j] == t[j - 1];
      }
    }
  }

  /** Puts `x` in front of the first row that is not newer than it. */
  function InsertNewestFirst(x: Image, s: seq<Image>): (r: seq<Image>)
    ensures |r| == |s| + 1 && (r[0] == x || (s != [] && r[0] == s[0]))
    ensures multiset(r) == multiset(s) + multiset{x}
  {
    if s == [] then [x]
    else if x.createdAt >= s[0].createdAt then [x] + s
    else
      assert s == [s[0]] + s[1..];
      [s[0]] + InsertNewestFirst(x, s[1..])
  }

  /** Inserting into a newest-first sequence keeps it newest first. */
  lemma {:induction false} InsertKeepsNewestFirst(x: Image, s: seq<Image>)
    requires NewestFirst(s)
    ensures NewestFirst(InsertNewestFirst(x, s))
  {
    if s != [] {
      if x.createdAt >= s[0].createdAt {
        PrependNewestFirst(x, s);
      } else {
        InsertKeepsNewestFirst(x, s[1..]);
        PrependNewestFirst(s[0], InsertNewestFirst(x, s[1..]));
      }
    }
  }

  /** `order_by(Image.created_at.desc())`, as an insertion sort. */
  function SortNewestFirst(s: seq<Image>): (r: seq<Image>)
    ensures NewestFirst(r)
    ensures multiset(r) == multiset(s)
  {
    if s == [] then []
    else
      assert s == [s[0]] + s[1..];
      InsertKeepsNewestFirst(s[0], SortNewestFirst(s[1..]));
      InsertNewestFirst(s[0], SortNewestFirst(s[1..]))
  }

  /** What the gallery lists for `userId`: only the caller's rows, newest
      first. */
  function Listing(images: seq<Image>, userId: nat): (r: seq<Image>)
    ensures NewestFirst(r)
    ensures forall k :: 0 <= k < |r| ==> r[k].userId == userId
  {
    var r := SortNewestFirst(OwnedBy(images, userId));
    forall k | 0 <= k < |r| ensures r[k].userId == userId {
      assert r[k] in multiset(OwnedBy(images, userId));
    }
    r
  }

  /** The listing holds every row of the caller exactly as often as the
      table does, and no row of anybody else. */
  lemma ListingKeepsCallersRows(images: seq<Image>, userId: nat)
    ensures forall img :: multiset(Listing(images, userId))[img] ==
                           if img.userId == userId then multiset(images)[img] else 0
  {
    OwnedByKeepsCallersRows(images, userId);
    assert Listing(images, userId) == SortNewestFirst(OwnedBy(images, userId));
  }

  /** Every image the caller owns is listed. */
  lemma OwnImageListed(images: seq<Image>, userId: nat, k: nat)
    requires k < |images| && images[k].userId == userId
    ensures images[k] in Listing(images, userId)
  {
    ListingKeepsCallersRows(images, userId);
    assert images[k] in multiset(images);
    assert multiset(Listing(images, userId))[images[k]] > 0;
  }

  /** The JSON rows built from a listing come from the caller's own images
      and keep the listing's newest-first order. */
  lemma ViewsOfListing(images: seq<Image>, userId: nat, views: seq<ImageView>)
    requires |views| == |Listing(images, userId)|
    requires forall k :: 0 <= k < |views| ==> views[k] == ViewOf(Listing(images, userId)[k])
    ensures forall k :: 0 <= k < |views| ==>
              exists j :: 0 <= j < |images| && images[j].userId == userId && ViewOf(images[j]) == views[k]
    ensures forall i, j :: 0 <= i < j < |views| ==> views[i].createdAt >= views[j].createdAt
  {
    var listing := Listing(images, userId);
    ListingKeepsCallersRows(images, userId);
    forall k | 0 <= k < |views|
      ensures exists j :: 0 <= j < |images| && images[j].userId == userId && ViewOf(images[j]) == views[k]
    {
      assert listing[k] in multiset(listing);
      assert listing[k] in multiset(images);
      var j :| 0 <= j < |images| && images[j] == listing[k];
    }
  }
}
