# ArtifAI rules layer, modelled in Dafny

ArtifAI is a Flask web application. Registered users type a prompt, pick a
style and an aspect ratio, and receive an image from an external
image-generation service. The application stores the image's metadata in
two tables, `user` and `image`. Users can list their gallery, mark images as
favourites and delete them.

This project models the application's own rules in `app.py`. Framework,
network and browser code is not modelled.

- **Request shaping** (module `Prompts`):
  - the style prefix put in front of the prompt;
  - the aspect-ratio-to-size map;
  - the one request sent to the provider.
- **The post-login redirect guard** (module `Urls`). The login handler
  follows `next` only when `urlparse(next).netloc` is empty. The model holds
  as much of Python's `urllib.parse.urlsplit` as decides that netloc:
  - leading C0 controls and spaces are stripped;
  - tabs and newlines are deleted;
  - the scheme is detected;
  - the authority after `//` is cut at `/`, `?` or `#`;
  - a `ValueError` is raised for an unbalanced `[`/`]`.
- **Database-type detection** (module `DbType`). The status endpoint
  searches the connection string for a driver name.
- **The two tables and their queries** (module `Tables`). Rows are records
  held in sequences. The module covers:
  - lookup by `(id, user_id)`;
  - the favourite flip;
  - deletion;
  - the ownership filter;
  - the `created_at` descending order.
- **The route handlers that change the tables** (module `App`). They are
  methods of `class Database`, which holds both tables and the next
  primary key of each: `Register`, `Login`, `Generate`, `ToggleFavorite`,
  `DeleteImage`, `ListImages` and `Status`. `Database.Valid()` is the
  invariant every state-changing handler keeps:
  - ids, usernames and emails are unique;
  - every image has a registered owner;
  - the counters stay ahead of every id in use.

Things outside the program are parameters:
- The image provider is a function from the outbound request
  (`ProviderCall`) to `ProviderSuccess(url)` or `ProviderFailure(error)`.
- Password hashing and checking are functions from strings.
- The clock is an `int` timestamp `now`.
- The connection string is a string argument.

The guard's evident purpose is an open-redirect check: after login, send
the user on only to a page of this site. The code checks only that the
netloc is empty. `Urls.RedirectTarget` models that check as written, and
`App.Database.Login` uses it. The gap is the finding below.
`Urls.SafeRedirectTarget` is the corrected guard, and lemmas relate it to
the original.

JSON request fields are `Option<string>`. `None` means the key is absent,
and then `dict.get`'s default applies.

## Model

| member | source | states |
|---|---|---|
| Sequences.FirstIndex | app.py:264 | `.first()` of a filtered query: the index found satisfies the filter, no earlier row does, and `None` means no row does |
| Prompts.StylePrefix | app.py:94-101 | exactly the six recognised styles have an instruction prefix, and it is never empty |
| Prompts.ComposePrompt | app.py:92-103 | the user's prompt is always a suffix of the prompt sent to the provider |
| Prompts.ComposePromptByStyle | app.py:92-103 | the prompt changes exactly for a style among the six, and then becomes that style's prefix followed by the prompt; a missing, empty, "default" or unknown style leaves it unchanged |
| Prompts.SizeFor | app.py:338-343 | "16:9" gives 1792x1024 and "9:16" gives 1024x1792, each iff that ratio; every other string, "1:1" included, gives 1024x1024 |
| Prompts.ProviderCallFor | app.py:105-111 | every provider request asks for one image from dall-e-3 at the given size, and the user's prompt is a suffix of its prompt |
| Urls.LStripControls | app.py:273 | urlsplit's front strip removes only a leading run of U+0000 to U+0020 and stops at the first other character |
| Urls.RemoveTabsAndNewlines | app.py:273 | urlsplit's clean-up leaves no tab, CR or LF and changes nothing in a string without them |
| Urls.RemoveKeepsOthers | app.py:273 | the clean-up keeps every character other than a tab, CR or LF exactly as often as it occurs |
| Urls.SchemeEnd | app.py:273 | a scheme ends at the first ':' and must start with an ASCII letter and consist of scheme characters |
| Urls.AuthorityPrefix | app.py:273 | the authority is the longest prefix without '/', '?' or '#' |
| Urls.NetlocOf | app.py:273 | the netloc is empty exactly when the cleaned, scheme-less target does not start with "//" followed by an authority character; a non-empty netloc never holds '/', '?' or '#' |
| Urls.RedirectTarget | app.py:272-276 | the guard as written: a missing or empty `next` goes to the generator page; a target other than the generator page is always the given `next` with an empty netloc; every non-empty `next` with an empty netloc is followed; the answer is a server error exactly when a non-empty `next` has an unbalanced bracket in its authority |
| Urls.LStripSkipsControls | app.py:273 | stripping skips exactly a prefix of controls and spaces |
| Urls.RemoveDistributes | app.py:273 | removing tabs and newlines works piecewise over a concatenation |
| Urls.PrepareSkipsControls | app.py:273 | after leading controls, a clean start of the target survives urlsplit's clean-up unchanged |
| Urls.NoSchemeBeforeNonLetter | app.py:273 | a target not starting with a letter has no scheme |
| Urls.AuthorityNeverHonoured | app.py:272-274 | a target in which urlsplit finds an authority is never followed |
| Urls.NoAuthorityHonoured | app.py:272-276 | a non-empty target without an authority is always followed unchanged |
| Urls.SchemeStripped | app.py:273 | a well-formed scheme and its ':' are split off and the rest is kept |
| Urls.SchemeAt | app.py:273 | a well-formed scheme ending at some index of the target is split off there, together with its ':' |
| Urls.RelativeAuthorityFound | app.py:273 | "//host" behind leading controls or spaces has an authority |
| Urls.AbsoluteAuthorityFound | app.py:273 | "scheme://host" behind leading controls or spaces has an authority |
| Urls.SchemeLeadFound | app.py:273 | a target that starts "scheme://h" still has an authority after clean-up and scheme splitting |
| Urls.AuthorityNextRejected | app.py:272-274 | any `next` of the form [controls]["scheme:"]"//host…" sends the user to the generator page, or fails |
| Urls.PathNextHonoured | app.py:272-276 | a target starting with '/' not followed by '/', a tab or a newline is followed unchanged |
| Urls.PathPrepared | app.py:273 | clean-up keeps the leading '/' of such a target and the character after it |
| Urls.TripleSlashBypassesGuard | app.py:272-276 | "///host" passes the guard as written although a browser leaves the site for it (finding) |
| Urls.BackslashBypassesGuard | app.py:272-276 | "/\host" passes the guard as written although a browser leaves the site for it (finding) |
| Urls.SchemeTargetBypassesGuard | app.py:272-276 | "scheme:host" without "//" passes the guard as written although a browser can leave the site for it (finding) |
| Urls.SafeRedirectTarget | app.py:272-276 | the corrected guard always redirects, either to the generator page or to the given `next`, which then has an empty netloc and cannot leave the site |
| Urls.LocalPathStaysOnSite | app.py:272-276 | a path on this site has no scheme, no double slash and an empty netloc |
| Urls.SafeRedirectNarrowsGuard | app.py:272-276 | every target the corrected guard follows, the original guard follows too |
| Urls.PlainPathIsLocal | app.py:272-276 | '/' followed by anything but '/', '\', a tab or a newline is a path on this site |
| Urls.SafeRedirectFollowsLocalPath | app.py:272-276 | every target that starts with '/' and is not followed by '/', '\', a tab or a newline is followed unchanged by both the corrected and the original guard |
| DbType.ContainsAt | app.py:481 | Python's `sub in s` holds exactly when `sub` occurs at some index of `s` |
| DbType.DetectDbType | app.py:480-486 | MySQL iff "mysql" occurs anywhere; SQLite iff "sqlite" occurs and "mysql" does not; PostgreSQL iff "postgresql" occurs and neither earlier name does; otherwise Unknown |
| DbType.SchemeNamesBackend | app.py:480-486 | a connection string starting with a driver name reports that backend unless an earlier-checked name also occurs |
| DbType.MysqlAnywhereWins | app.py:481-482 | "mysql" anywhere in the connection string, not only in its scheme, makes the report MySQL |
| Tables.FindUserByName | app.py:264 | the row found has that username, and none is found exactly when no user has it |
| Tables.FindUserByEmail | app.py:296 | the row found has that email, and none is found exactly when no user has it |
| Tables.RegisterKeepsUnique | app.py:123-124 | appending a user whose id, username and email are all new keeps ids, usernames and emails unique |
| Tables.FindOwned | app.py:422 | the image found has both the requested id and the caller as owner, it is the first such row, and none is found exactly when no row matches both |
| Tables.FindOwnedSameMatches | app.py:422 | the lookup depends only on which rows match id and owner, so flipping favourites does not change it |
| Tables.Toggled | app.py:422-430 | only `is_favorite` can change; it changes on exactly the caller's matching row; every row not matching both id and owner is untouched |
| Tables.ToggleTwiceRestores | app.py:427 | toggling the same image twice restores the whole table |
| Tables.Deleted | app.py:436-444 | without a match the table is unchanged; with one, exactly that row leaves the multiset of rows; every row not matching both id and owner stays; no row is added |
| Tables.DeletedImageIsGone | app.py:441 | with unique ids no row matching the id and owner remains, and ids stay unique |
| Tables.UserAddedKeepsWellFormed | app.py:121-127 | registering a user with the next id and an unused username and email keeps keys unique, owners registered and counters ahead |
| Tables.ImageAddedKeepsWellFormed | app.py:138-146 | inserting an image with the next id and a registered owner keeps the invariant |
| Tables.ToggleKeepsWellFormed | app.py:427-428 | flipping a favourite keeps the invariant |
| Tables.DeleteKeepsWellFormed | app.py:441-442 | a deletion keeps the invariant, and no row matching the deleted id and owner is left |
| Tables.OwnedBy | app.py:390 | the ownership filter keeps only the caller's rows |
| Tables.OwnedByKeepsCallersRows | app.py:390 | the filter keeps each of the caller's rows as often as the table holds it, and no other row |
| Tables.PrependNewestFirst | app.py:393 | a row at least as new as the head of a newest-first sequence may go in front of it |
| Tables.InsertNewestFirst | app.py:393 | insertion adds exactly that row, and the result starts with it or with the old head |
| Tables.InsertKeepsNewestFirst | app.py:393 | inserting into a newest-first sequence keeps it newest first |
| Tables.SortNewestFirst | app.py:393 | the result is ordered by `created_at` non-increasing and is a permutation of the input |
| Tables.Listing | app.py:390-393 | the listing is newest first and holds only the caller's rows |
| Tables.ListingKeepsCallersRows | app.py:390-393 | the listing holds each of the caller's rows exactly as often as the table does, and none of anybody else's |
| Tables.OwnImageListed | app.py:390-393 | every image the caller owns appears in the listing |
| Tables.ViewsOfListing | app.py:399-409 | the JSON rows built from the listing each describe one of the caller's images, in non-increasing `created_at` |
| App.Database.constructor | app.py:503-504 | a fresh database has empty tables and satisfies the invariant |
| App.Database.Register | app.py:286-305 | a taken username is refused first, then a taken email, and neither adds a row; otherwise exactly one user with the next id, the hashed password and `now` is appended; the invariant (unique ids, usernames and emails) is kept and images are untouched |
| App.Database.Login | app.py:260-276 | login succeeds iff some user with that username has a hash accepting the password, and it logs in that user; on success the redirect is the guard's answer for `next` as written: the given `next` or the generator page, or a server error |
| App.Database.Generate | app.py:329-373 | a missing or empty prompt gives 400 with no provider call and no change; otherwise exactly one request goes out, for the style-composed prompt at the mapped size; a provider failure is passed on with no change; a success appends exactly one image: the next id, owned by the caller, with the given prompt, the provider's URL, the raw style and aspect ratio (defaults "default" and "1:1"), `now`, and not a favourite |
| App.Database.ToggleFavorite | app.py:420-430 | the new table is the toggled one; 404 exactly when the caller owns no image with that id, and then nothing changes; otherwise the reply carries the new flag, which differs from the old |
| App.Database.DeleteImage | app.py:434-444 | the new table is the one with the caller's matching row deleted; 404 exactly when there is none, and then nothing changes; otherwise the reply is "deleted", with one row fewer and none left matching id and owner |
| App.ViewsOf | app.py:399-409 | the loop yields one JSON row per listed image, in order, carrying every column but the owner |
| App.Database.ListImages | app.py:383-416 | the views are built from the listing in order, each describes one of the caller's images, and `created_at` never increases along them |
| App.Database.Status | app.py:473-493 | the report names the backend found in the connection string, always one of four names, and counts the rows of both tables |

## Left out

- Flask routing, templates, flash messages and `jsonify` are not modelled. So are the flask_login session (`login_user`, `logout_user`, `current_user`) and the already-logged-in shortcuts of `login` and `register`. Handlers return a result datatype and, where the source sets one, its HTTP status.
- Missing form fields in `login` and `register` are not modelled. Indexing `request.form` raises a 400 error before any query runs. The model takes the fields as given strings.
- `login_required` is a precondition of `Generate` (the caller is a registered user) or a plain `userId` argument.
- Commit, rollback and the 500 error handler are not modelled. A handler's changes are its whole effect.
- `openai.Image.create` is a function parameter. Its exceptions are the `ProviderFailure` case. The 500 status of a failed generation is `GenerateResponse.StatusCode`.
- Password hashing (`generate_password_hash`, `check_password_hash`) is not modelled. Both are function parameters.
- `datetime.utcnow` and `isoformat` are not modelled. `created_at` is an integer supplied by the caller.
- App.Database.ListImages: pagination is not modelled. `paginate`'s page slicing, `total`, `pages` and out-of-range pages come from a library that is not part of this model. The method returns the whole listing.
- Tables.SortNewestFirst: rows with equal `created_at` come out in an order the database does not promise. The model only states that the order is non-increasing and a permutation.
- JSON `null` or non-string values for `prompt`, `style` and `aspectRatio` are not modelled. A request field is either absent or a string.
- SQLite may reuse the largest freed rowid. The model never reuses an id.
- Column length limits (64, 120, 256, 500, 50 and 20 characters) and case-insensitive collation in MySQL are not modelled.
- Urls.NetlocOf: urlsplit's other `ValueError`s (bracketed hosts that are not valid IPv6, and NFKC checks on non-ASCII netlocs) are not modelled. They concern a non-empty netloc, which the guard rejects anyway, so they could only turn a fallback redirect into a server error. Its scheme test uses ASCII letters only, as CPython 3.12 does.
- `database_status`'s `except` branch (status "error") is not modelled, since the in-memory tables cannot fail to count.
- The `profile` page's image and favourite counts, the sample image list `get_sample_images`, the static pages (`index`, `generator`, `gallery`, `logout`) and the JavaScript under static/js are not modelled. They are display-only.

## Findings

| source | as written | input that shows it | evidently intended | confidence | as-written member | corrected member |
|---|---|---|---|---|---|---|
| app.py:272-276 | the post-login redirect is followed whenever `urlparse(next).netloc` is empty | `next=///evil.example` (urlsplit netloc ""), `next=/\evil.example` and `next=https:evil.example` (no authority at all); a browser can resolve each to `evil.example` | follow only a relative path on this site, with no scheme and no host, otherwise go to the generator page | medium, not executed | Urls.TripleSlashBypassesGuard, Urls.BackslashBypassesGuard, Urls.SchemeTargetBypassesGuard (on Urls.RedirectTarget) | Urls.SafeRedirectTarget, with Urls.SafeRedirectFollowsLocalPath and Urls.SafeRedirectNarrowsGuard |
