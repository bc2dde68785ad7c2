/** The route handlers of app.py that read and change the two tables:
    registration, login, image generation, the favourite toggle, deletion,
    the gallery listing and the database status report. */
module App {
  import opened Records
  import opened Tables
  import opened Prompts
  import opened Urls
  import opened DbType

  /** `register`: both rejections redirect back to the form. */
  datatype RegisterResponse = UsernameTaken | EmailTaken | Registered(userId: nat)

  /** `login`: bad credentials redirect back to the form; success logs the
      user in and redirects. */
  datatype LoginResponse = InvalidCredentials | LoggedIn(userId: nat, redirect: Redirect)

  /** `api_generate`, with its HTTP status. */
  datatype GenerateResponse = PromptRequired | ProviderFailed(error: string) | Generated(image: Image)
  {
    function StatusCode(): nat {
      match this
      case PromptRequired => 400
      case ProviderFailed(_) => 500
      case Generated(_) => 200
    }
  }

  /** `toggle_favorite` and `delete_image`, with their HTTP status. */
  datatype ImageResponse = ImageNotFound | FavoriteSet(isFavorite: bool) | ImageDeleted
  {
    function StatusCode(): nat {
      if this == ImageNotFound then 404 else 200
    }
  }

  /** `database_status` when the queries succeed. */
  datatype DatabaseStatus = DatabaseStatus(databaseType: string, userCount: nat, imageCount: nat)

  /** The append loop of `api_images`: one JSON row per listed image, in
      order, with every column but the owner. */
  method ViewsOf(listing: seq<Image>) returns (views: seq<ImageView>)
    ensures |views| == |listing|
    ensures forall k :: 0 <= k < |views| ==>
              views[k].id == listing[k].id && views[k].url == listing[k].imageUrl &&
              views[k].prompt == listing[k].prompt && views[k].style == listing[k].style &&
              views[k].aspectRatio == listing[k].aspectRatio &&
              views[k].createdAt == listing[k].createdAt && views[k].isFavorite == listing[k].isFavorite
  {
    views := [];
    var i := 0;
    while i < |listing|
      invariant 0 <= i <= |listing|
      invariant |views| == i
      invariant forall k :: 0 <= k < i ==> views[k] == ViewOf(listing[k])
    {
      views := views + [ViewOf(listing[i])];
      i := i + 1;
    }
  }

  /** The database session: the `user` and `image` tables and the next
      primary key each will hand out. */
  class Database {
    var users: seq<User>
    var images: seq<Image>
    var nextUserId: nat
    var nextImageId: nat

    /** Keys are unique, every image has an owner, and the counters are
        ahead of every key in use. */
    ghost predicate Valid()
      reads this
    {
      WellFormed(users, images, nextUserId, nextImageId)
    }

    /** `db.create_all()` on an empty database. */
    constructor ()
      ensures Valid()
      ensures users == [] && images == []
    {
      users := [];
      images := [];
      nextUserId := 1;
      nextImageId := 1;
    }

    /** `register`: a taken username is refused first, then a taken email;
        otherwise exactly one user is added, with the hashed password. */
    method Register(username: string, email: string, password: string,
                    hashPassword: string -> string, now: int) returns (r: RegisterResponse)
      requires Valid()
      modifies this
      ensures Valid()
      ensures images == old(images) && nextImageId == old(nextImageId)
      ensures HasUsername(old(users), username) ==>
                r == UsernameTaken && users == old(users) && nextUserId == old(nextUserId)
      ensures !HasUsername(old(users), username) && HasEmail(old(users), email) ==>
                r == EmailTaken && users == old(users) && nextUserId == old(nextUserId)
      ensures !HasUsername(old(users), username) && !HasEmail(old(users), email) ==>
                r == Registered(old(nextUserId)) &&
                users == old(users) + [User(old(nextUserId), username, email, hashPassword(password), now)] &&
                nextUserId == old(nextUserId) + 1
    {
      if FindUserByName(users, username).Some? {
        return UsernameTaken;
      }
      if FindUserByEmail(users, email).Some? {
        return EmailTaken;
      }
      var user := User(nextUserId, username, email, hashPassword(password), now);
      UserAddedKeepsWellFormed(users, images, nextUserId, nextImageId, user);
      users := users + [user];
      nextUserId := nextUserId + 1;
      r := Registered(user.id);
    }

    /** `login`: the user named `username` whose stored hash accepts the
        password is logged in and sent where the `next` guard as written
        says: to `next` when it names no network location, to the generator
        page otherwise, or to a server error when `next` is not parseable. */
    method Login(username: string, password: string, next: Option<string>,
                 checkPassword: (string, string) -> bool) returns (r: LoginResponse)
      requires Valid()
      ensures r.InvalidCredentials? <==>
                !exists k :: 0 <= k < |users| && users[k].username == username &&
                             checkPassword(users[k].passwordHash, password)
      ensures r.LoggedIn? ==>
                exists k :: 0 <= k < |users| && users[k].id == r.userId &&
                            users[k].username == username && checkPassword(users[k].passwordHash, password)
      ensures r.LoggedIn? ==> r.redirect == RedirectTarget(next)
    {
      var found := FindUserByName(users, username);
      if found.None? || !checkPassword(users[found.value].passwordHash, password) {
        return InvalidCredentials;
      }
      r := LoggedIn(users[found.value].id, RedirectTarget(next));
    }

    /** `api_generate`: a missing or empty prompt is refused before the
        provider is called; a provider failure is reported as is; only a
        success inserts, and then exactly one unfavourited image owned by the
        caller with the raw style and aspect ratio of the request. */
    method Generate(userId: nat, prompt: Option<string>, style: Option<string>,
                    aspectRatio: Option<string>, provider: ProviderCall -> ProviderResult,
                    now: int) returns (r: GenerateResponse, call: Option<ProviderCall>)
      requires Valid() && HasUserId(users, userId)
      modifies this
      ensures Valid()
      ensures users == old(users) && nextUserId == old(nextUserId)
      ensures r == PromptRequired <==> prompt.None? || prompt.value == ""
      ensures r == PromptRequired <==> call.None?
      ensures call.Some? ==>
                call.value == ProviderCallFor(prompt.value, Some(style.GetOr(DEFAULT_STYLE)),
                                              SizeFor(aspectRatio.GetOr(DEFAULT_ASPECT_RATIO)))
      ensures call.Some? ==> IsSuffix(prompt.value, call.value.prompt)
      ensures r.ProviderFailed? <==> call.Some? && provider(call.value).ProviderFailure?
      ensures r.ProviderFailed? ==> r.error == provider(call.value).error
      ensures !r.Generated? ==> images == old(images) && nextImageId == old(nextImageId)
      ensures r.Generated? ==>
                images == old(images) + [r.image] && nextImageId == old(nextImageId) + 1
      ensures r.Generated? ==>
                r.image.id == old(nextImageId) && r.image.userId == userId &&
                r.image.prompt == prompt.value && r.image.imageUrl == provider(call.value).url &&
                r.image.style == style.GetOr(DEFAULT_STYLE) &&
                r.image.aspectRatio == aspectRatio.GetOr(DEFAULT_ASPECT_RATIO) &&
                r.image.createdAt == now && !r.image.isFavorite
    {
      if prompt.None? || prompt.value == "" {
        return PromptRequired, None;
      }
      var styleName := style.GetOr(DEFAULT_STYLE);
      var ratio := aspectRatio.GetOr(DEFAULT_ASPECT_RATIO);
      var request := ProviderCallFor(prompt.value, Some(styleName), SizeFor(ratio));
      call := Some(request);
      var result := provider(request);
      if result.ProviderFailure? {
        return ProviderFailed(result.error), call;
      }
      var image := NewImage(nextImageId, userId, prompt.value, result.url, styleName, ratio, now);
      ImageAddedKeepsWellFormed(users, images, nextUserId, nextImageId, image);
      images := images + [image];
      nextImageId := nextImageId + 1;
      r := Generated(image);
    }

    /** `toggle_favorite`: flips the favourite flag of the caller's image
        with that id and nothing else; a missing or foreign id is a 404 that
        changes nothing. */
    method ToggleFavorite(userId: nat, imageId: nat) returns (r: ImageResponse)
      requires Valid()
      modifies this
      ensures Valid()
      ensures users == old(users) && nextUserId == old(nextUserId) && nextImageId == old(nextImageId)
      ensures images == Toggled(old(images), imageId, userId)
      ensures r == ImageNotFound <==> FindOwned(old(images), imageId, userId).None?
      ensures r == ImageNotFound ==> images == old(images)
      ensures r != ImageNotFound ==>
                var i := FindOwned(old(images), imageId, userId).value;
                r == FavoriteSet(images[i].isFavorite) && images[i].isFavorite != old(images)[i].isFavorite
    {
      var found := FindOwned(images, imageId, userId);
      if found.None? {
        return ImageNotFound;
      }
      ToggleKeepsWellFormed(users, images, nextUserId, nextImageId, imageId, userId);
      var i := found.value;
      images := images[i := images[i].(isFavorite := !images[i].isFavorite)];
      r := FavoriteSet(images[i].isFavorite);
    }

    /** `delete_image`: removes the caller's image with that id, keeps every
        other row in order; a missing or foreign id is a 404 that changes
        nothing. */
    method DeleteImage(userId: nat, imageId: nat) returns (r: ImageResponse)
      requires Valid()
      modifies this
      ensures Valid()
      ensures users == old(users) && nextUserId == old(nextUserId) && nextImageId == old(nextImageId)
      ensures images == Deleted(old(images), imageId, userId)
      ensures r == ImageNotFound <==> FindOwned(old(images), imageId, userId).None?
      ensures r == ImageNotFound ==> images == old(images)
      ensures r == ImageNotFound || r == ImageDeleted
      ensures r == ImageDeleted ==>
                |images| == |old(images)| - 1 &&
                forall k :: 0 <= k < |images| ==> !IsOwned(images[k], imageId, userId)
    {
      var found := FindOwned(images, imageId, userId);
      if found.None? {
        return ImageNotFound;
      }
      DeleteKeepsWellFormed(users, images, nextUserId, nextImageId, imageId, userId);
      var i := found.value;
      images := images[..i] + images[i + 1..];
      r := ImageDeleted;
    }

    /** `api_images`: one view per image of the caller, newest first, and
        nothing of anybody else's. */
    method ListImages(userId: nat) returns (views: seq<ImageView>)
      ensures |views| == |Listing(images, userId)|
      ensures forall k :: 0 <= k < |views| ==> views[k] == ViewOf(Listing(images, userId)[k])
      ensures forall k :: 0 <= k < |views| ==>
                exists j :: 0 <= j < |images| && images[j].userId == userId && ViewOf(images[j]) == views[k]
      ensures forall i, j :: 0 <= i < j < |views| ==> views[i].createdAt >= views[j].createdAt
    {
      views := ViewsOf(Listing(images, userId));
      ViewsOfListing(images, userId, views);
    }

    /** `database_status`: the backend named by the connection string and
        the row count of each table. */
    method Status(uri: string) returns (s: DatabaseStatus)
      ensures s.databaseType == DetectDbType(uri)
      ensures s.databaseType in {MYSQL, SQLITE, POSTGRESQL, UNKNOWN}
      ensures s.userCount == |users| && s.imageCount == |images|
    {
      s := DatabaseStatus(DetectDbType(uri), |users|, |images|);
    }
  }
}
