/** The post-login `next` redirect guard of app.py `login`: the target is
    honoured only when `urlparse(next).netloc` is empty. The network location
    is the authority component of section 3.2 of RFC 3986 as Python's
    `urllib.parse.urlsplit` (CPython 3.12) extracts it. */
module Urls {
  import opened Records
  import opened Sequences

  /** `url_for('generator')`, the fallback landing page. */
  const GENERATOR_PAGE := "/generator"

  /** U+0000 to U+0020: the characters urlsplit strips from the front. */
  predicate IsC0OrSpace(c: char) { c <= ' ' }

  /** The characters urlsplit deletes wherever they occur. */
  predicate IsTabOrNewline(c: char) { c == '\t' || c == '\r' || c == '\n' }

  predicate IsAsciiAlpha(c: char) { 'a' <= c <= 'z' || 'A' <= c <= 'Z' }

  predicate IsSchemeChar(c: char) {
    IsAsciiAlpha(c) || '0' <= c <= '9' || c == '+' || c == '-' || c == '.'
  }

  /** The characters that end an authority: the start of a path, a query or a fragment. */
  predicate IsAuthorityEnd(c: char) { c == '/' || c == '?' || c == '#' }

  predicate IsColon(c: char) { c == ':' }

  predicate IsSlash(c: char) { c == '/' || c == '\\' }

  /** `url.lstrip(_WHATWG_C0_CONTROL_OR_SPACE)`: drops the leading run of C0
      controls and spaces, and nothing else. */
  function LStripControls(s: string): (r: string)
    ensures |r| <= |s| && r == s[|s| - |r|..]
    ensures forall i :: 0 <= i < |s| - |r| ==> IsC0OrSpace(s[i])
    ensures r == [] || !IsC0OrSpace(r[0])
  {
    if s == [] || !IsC0OrSpace(s[0]) then s else LStripControls(s[1..])
  }

  /** `url.replace(b, "")` for b in tab, CR, LF: deletes those. That every
      other character is kept, and in order, is RemoveKeepsOthers and
      RemoveDistributes. */
  function RemoveTabsAndNewlines(s: string): (r: string)
    ensures |r| <= |s|
    ensures forall i :: 0 <= i < |r| ==> !IsTabOrNewline(r[i])
    ensures (forall i :: 0 <= i < |s| ==> !IsTabOrNewline(s[i])) ==> r == s
  {
    if s == [] then []
    else if IsTabOrNewline(s[0]) then RemoveTabsAndNewlines(s[1..])
    else [s[0]] + RemoveTabsAndNewlines(s[1..])
  }

  /** The string urlsplit goes on to parse. */
  function Prepare(url: string): string {
    RemoveTabsAndNewlines(LStripControls(url))
  }

  /** The index of the ':' that ends a scheme, when urlsplit sees one: the
      first ':' of the string, not at the front, after an ASCII letter and
      scheme characters only. */
  function SchemeEnd(url: string): (r: Option<nat>)
    ensures r.Some? ==> 0 < r.value < |url| && url[r.value] == ':' && IsAsciiAlpha(url[0])
    ensures r.Some? ==> forall j :: 0 <= j < r.value ==> IsSchemeChar(url[j])
  {
    match FirstIndex(url, IsColon)
    case Some(i) =>
      if i > 0 && IsAsciiAlpha(url[0]) && forall j :: 0 <= j < i ==> IsSchemeChar(url[j])
      then Some(i) else None
    case None => None
  }

  /** What follows the scheme, or the whole string when there is none. */
  function StripScheme(url: string): string {
    match SchemeEnd(url)
    case Some(i) => url[i + 1..]
    case None => url
  }

  /** An authority is present: "//" followed by at least one character
      that does not already end it. */
  predicate StartsWithAuthority(u: string) {
    |u| >= 3 && u[0] == '/' && u[1] == '/' && !IsAuthorityEnd(u[2])
  }

  /** The outcome of `urlsplit(url).netloc`: the network location, or the
      ValueError raised for an unbalanced '[' or ']'. */
  datatype Netloc = Netloc(value: string) | InvalidIPv6Url

  /** `_splitnetloc`: the authority runs up to the first '/', '?' or '#',
      or to the end. */
  function AuthorityPrefix(s: string): (a: string)
    ensures |a| <= |s| && a == s[..|a|]
    ensures forall i :: 0 <= i < |a| ==> !IsAuthorityEnd(a[i])
    ensures |a| < |s| ==> IsAuthorityEnd(s[|a|])
  {
    match FirstIndex(s, IsAuthorityEnd)
    case Some(k) => s[..k]
    case None => s
  }

  function NetlocOf(url: string): (r: Netloc)
    ensures r == Netloc("") <==> !StartsWithAuthority(StripScheme(Prepare(url)))
    ensures r.Netloc? ==> forall i :: 0 <= i < |r.value| ==> !IsAuthorityEnd(r.value[i])
  {
    var u := StripScheme(Prepare(url));
    if |u| >= 2 && u[0] == '/' && u[1] == '/' then
      var netloc := AuthorityPrefix(u[2..]);
      assert netloc == [] <==> |u| == 2 || IsAuthorityEnd(u[2]);
      if ('[' in netloc) != (']' in netloc) then InvalidIPv6Url else Netloc(netloc)
    else
      Netloc("")
  }

  /** Where the login handler sends the browser, or the server error the
      escaping ValueError turns into. */
  datatype Redirect = RedirectTo(location: string) | ServerError

  /** The guard as written: a missing or empty `next`, or one with a network
      location, falls back to the generator page. */
  function RedirectTarget(next: Option<string>): (r: Redirect)
    ensures r.RedirectTo? && r.location != GENERATOR_PAGE ==>
              next == Some(r.location) && NetlocOf(r.location) == Netloc("")
    ensures next.Some? && next.value != "" && NetlocOf(next.value) == Netloc("") ==>
              r == RedirectTo(next.value)
    ensures next.None? || next.value == "" ==> r == RedirectTo(GENERATOR_PAGE)
    ensures r.ServerError? <==> next.Some? && next.value != "" && NetlocOf(next.value).InvalidIPv6Url?
  {
    if next.None? || next.value == "" then RedirectTo(GENERATOR_PAGE)
    else match NetlocOf(next.value)
         case InvalidIPv6Url => ServerError
         case Netloc(n) => if n != "" then RedirectTo(GENERATOR_PAGE) else RedirectTo(next.value)
  }

  lemma {:induction false} LStripSkipsControls(pre: string, s: string)
    requires forall i :: 0 <= i < |pre| ==> IsC0OrSpace(pre[i])
    requires s != [] && !IsC0OrSpace(s[0])
    ensures LStripControls(pre + s) == s
  {
    if pre != [] {
      assert (pre + s)[1..] == pre[1..] + s;
      LStripSkipsControls(pre[1..], s);
    } else {
      assert pre + s == s;
    }
  }

  lemma {:induction false} RemoveDistributes(a: string, b: string)
    ensures RemoveTabsAndNewlines(a + b) == RemoveTabsAndNewlines(a) + RemoveTabsAndNewlines(b)
  {
    if a == [] {
      assert a + b == b;
    } else {
      assert (a + b)[1..] == a[1..] + b;
      RemoveDistributes(a[1..], b);
    }
  }

  /** Every character but a tab or newline is kept as often as it occurs. */
  lemma {:induction false} RemoveKeepsOthers(s: string)
    ensures forall c :: multiset(RemoveTabsAndNewlines(s))[c] ==
                          if IsTabOrNewline(c) then 0 else multiset(s)[c]
  {
    if s != [] {
      RemoveKeepsOthers(s[1..]);
      assert s == [s[0]] + s[1..];
      assert multiset(s) == multiset{s[0]} + multiset(s[1..]);
      if !IsTabOrNewline(s[0]) {
        assert multiset(RemoveTabsAndNewlines(s)) ==
               multiset{s[0]} + multiset(RemoveTabsAndNewlines(s[1..]));
      }
    }
  }

  /** The clean-up urlsplit does first skips leading controls and spaces and
      keeps a start free of tabs and newlines as it is. */
  lemma PrepareSkipsControls(pre: string, start: string, rest: string)
    requires forall i :: 0 <= i < |pre| ==> IsC0OrSpace(pre[i])
    requires start != [] && !IsC0OrSpace(start[0])
    requires RemoveTabsAndNewlines(start) == start
    ensures Prepare(pre + start + rest) == start + RemoveTabsAndNewlines(rest)
  {
    assert pre + start + rest == pre + (start + rest);
    LStripSkipsControls(pre, start + rest);
    RemoveDistributes(start, rest);
  }

  /** A string that does not start with a letter has no scheme. */
  lemma NoSchemeBeforeNonLetter(u: string)
    requires u != [] && !IsAsciiAlpha(u[0])
    ensures SchemeEnd(u).None? && StripScheme(u) == u
  {
  }

  /** When urlsplit finds an authority, the target is never honoured. */
  lemma AuthorityNeverHonoured(next: string)
    requires StartsWithAuthority(StripScheme(Prepare(next)))
    ensures RedirectTarget(Some(next)) == RedirectTo(GENERATOR_PAGE) ||
            RedirectTarget(Some(next)) == ServerError
  {
  }

  /** When urlsplit finds no authority, a non-empty target is honoured. */
  lemma NoAuthorityHonoured(next: string)
    requires next != "" && !StartsWithAuthority(StripScheme(Prepare(next)))
    ensures RedirectTarget(Some(next)) == RedirectTo(next)
  {
  }

  /** urlsplit takes a run of scheme characters that starts with a letter
      and ends at the first ':' as the scheme. */
  lemma SchemeStripped(scheme: string, tail: string)
    requires IsScheme(scheme)
    ensures StripScheme(scheme + ":" + tail) == tail
  {
    var u := scheme + ":" + tail;
    assert u[..|scheme|] == scheme;
    SchemeAt(u, |scheme|);
    assert u[|scheme| + 1..] == tail;
  }

  /** A scheme ending at index `n` of the cleaned-up target is what
      urlsplit splits off. */
  lemma SchemeAt(u: string, n: nat)
    requires n < |u| && IsScheme(u[..n]) && u[n] == ':'
    ensures StripScheme(u) == u[n + 1..]
  {
    assert forall j :: 0 <= j < n ==> u[j] == u[..n][j] && !IsColon(u[j]);
    assert FirstIndex(u, IsColon) == Some(n);
    assert SchemeEnd(u) == Some(n);
  }

  predicate IsScheme(scheme: string) {
    scheme != [] && IsAsciiAlpha(scheme[0]) &&
    forall i :: 0 <= i < |scheme| ==> IsSchemeChar(scheme[i])
  }

  /** "//h..." behind leading controls or spaces: urlsplit finds an authority. */
  lemma RelativeAuthorityFound(pre: string, h: char, rest: string)
    requires forall i :: 0 <= i < |pre| ==> IsC0OrSpace(pre[i])
    requires !IsAuthorityEnd(h) && !IsTabOrNewline(h)
    ensures StartsWithAuthority(StripScheme(Prepare(pre + "//" + [h] + rest)))
  {
    var start := "//" + [h];
    assert pre + "//" + [h] + rest == pre + start + rest;
    PrepareSkipsControls(pre, start, rest);
    NoSchemeBeforeNonLetter(start + RemoveTabsAndNewlines(rest));
  }

  /** "scheme://h..." behind leading controls or spaces: urlsplit finds an authority. */
  lemma AbsoluteAuthorityFound(pre: string, scheme: string, h: char, rest: string)
    requires forall i :: 0 <= i < |pre| ==> IsC0OrSpace(pre[i])
    requires IsScheme(scheme)
    requires !IsAuthorityEnd(h) && !IsTabOrNewline(h)
    ensures StartsWithAuthority(StripScheme(Prepare(pre + (scheme + ":") + "//" + [h] + rest)))
  {
    var full := pre + (scheme + ":") + "//" + [h] + rest;
    var n := |scheme|;
    var v := full[|pre|..];
    assert full == pre + v;
    assert v[..n] == scheme;
    assert v[n] == ':' && v[n + 1] == '/' && v[n + 2] == '/' && v[n + 3] == h;
    LStripSkipsControls(pre, v);
    SchemeLeadFound(v, n);
  }

  /** Clean-up keeps a scheme, its ':' and "//h" in front, so urlsplit
      finds the authority after the scheme. */
  lemma SchemeLeadFound(v: string, n: nat)
    requires n + 4 <= |v| && IsScheme(v[..n]) && v[n] == ':' && v[n + 1] == '/' && v[n + 2] == '/'
    requires !IsAuthorityEnd(v[n + 3]) && !IsTabOrNewline(v[n + 3])
    ensures StartsWithAuthority(StripScheme(RemoveTabsAndNewlines(v)))
  {
    var lead, tail := v[..n + 4], v[n + 4..];
    assert v == lead + tail;
    forall i | 0 <= i < |lead| ensures !IsTabOrNewline(lead[i]) {
      if i < n {
        assert lead[i] == v[..n][i];
        assert IsSchemeChar(v[..n][i]);
        assert !IsTabOrNewline(v[..n][i]);
      } else {
        assert lead[i] == v[i];
        assert i == n || i == n + 1 || i == n + 2 || i == n + 3;
      }
    }
    RemoveDistributes(lead, tail);
    var u := RemoveTabsAndNewlines(v);
    assert u == lead + RemoveTabsAndNewlines(tail);
    assert u[..n] == v[..n];
    SchemeAt(u, n);
  }

  /** An absolute URL ("scheme://h...") or a scheme-relative one ("//h..."),
      behind any run of leading controls or spaces, is never honoured: the
      login falls back to the generator page (or fails). `h` is the first
      character of the host. */
  lemma AuthorityNextRejected(pre: string, scheme: string, h: char, rest: string)
    requires forall i :: 0 <= i < |pre| ==> IsC0OrSpace(pre[i])
    requires scheme == [] || IsScheme(scheme)
    requires !IsAuthorityEnd(h) && !IsTabOrNewline(h)
    ensures var next := pre + (if scheme == [] then "" else scheme + ":") + "//" + [h] + rest;
            RedirectTarget(Some(next)) == RedirectTo(GENERATOR_PAGE) ||
            RedirectTarget(Some(next)) == ServerError
  {
    if scheme == [] {
      assert pre + "" == pre;
      RelativeAuthorityFound(pre, h, rest);
    } else {
      AbsoluteAuthorityFound(pre, scheme, h, rest);
    }
    AuthorityNeverHonoured(pre + (if scheme == [] then "" else scheme + ":") + "//" + [h] + rest);
  }

  /** A path on this site ('/' then anything but a second '/', tab or
      newline) is honoured unchanged. */
  lemma PathNextHonoured(next: string)
    requires |next| >= 1 && next[0] == '/'
    requires |next| >= 2 ==> next[1] != '/' && !IsTabOrNewline(next[1])
    ensures RedirectTarget(Some(next)) == RedirectTo(next)
  {
    PathPrepared(next);
    NoSchemeBeforeNonLetter(Prepare(next));
    NoAuthorityHonoured(next);
  }

  /** The clean-up keeps the first two characters of such a path. */
  lemma PathPrepared(next: string)
    requires |next| >= 1 && next[0] == '/'
    requires |next| >= 2 ==> !IsTabOrNewline(next[1])
    ensures |Prepare(next)| >= 1 && Prepare(next)[0] == '/'
    ensures |next| >= 2 ==> |Prepare(next)| >= 2 && Prepare(next)[1] == next[1]
  {
    assert LStripControls(next) == next;
    var u := Prepare(next);
    var w := RemoveTabsAndNewlines(next[1..]);
    assert u == [next[0]] + w;
    if |next| >= 2 {
      var tail := next[1..];
      assert tail[0] == next[1];
      assert w == [tail[0]] + RemoveTabsAndNewlines(tail[1..]);
      assert u[1] == w[0];
    }
  }

  /** How a browser resolving a Location header against an http(s) page (the
      basic URL parser of the WHATWG URL Standard) can end up off this site:
      the target carries a scheme of its own, or it starts with two characters
      each '/' or '\', which the parser reads as the start of an authority. */
  predicate MayLeaveOrigin(location: string) {
    var u := Prepare(location);
    SchemeEnd(u).Some? || (|u| >= 2 && IsSlash(u[0]) && IsSlash(u[1]))
  }

  /** The guard as written lets through targets that browsers send off-site:
      "///host..." has an empty network location for urlsplit, and
      "/\\host..." has none at all, yet a browser reads both as naming `host`. */
  lemma TripleSlashBypassesGuard(host: string)
    ensures var next := "///" + host;
            RedirectTarget(Some(next)) == RedirectTo(next) && MayLeaveOrigin(next)
  {
    var next := "///" + host;
    assert next == "" + "///" + host;
    PrepareSkipsControls("", "///", host);
    NoSchemeBeforeNonLetter(Prepare(next));
    NoAuthorityHonoured(next);
  }

  lemma BackslashBypassesGuard(host: string)
    ensures var next := "/\\" + host;
            RedirectTarget(Some(next)) == RedirectTo(next) && MayLeaveOrigin(next)
  {
    var next := "/\\" + host;
    assert next == "" + "/\\" + host;
    PrepareSkipsControls("", "/\\", host);
    NoSchemeBeforeNonLetter(Prepare(next));
    NoAuthorityHonoured(next);
  }

  /** A target with a scheme but no "//" has no network location either, so
      the guard as written follows "https:evil.example", which a browser on an
      http page (or "http:evil.example" on an https page) reads as naming
      the host `evil.example`. */
  lemma SchemeTargetBypassesGuard(scheme: string, host: string)
    requires IsScheme(scheme)
    requires host != [] && host[0] != '/'
    requires forall i :: 0 <= i < |host| ==> !IsTabOrNewline(host[i])
    ensures var next := scheme + ":" + host;
            RedirectTarget(Some(next)) == RedirectTo(next) && MayLeaveOrigin(next)
  {
    var next := scheme + ":" + host;
    assert forall i :: 0 <= i < |next| ==> !IsTabOrNewline(next[i]) by {
      forall i | 0 <= i < |next| ensures !IsTabOrNewline(next[i]) {
        if i < |scheme| {
          assert next[i] == scheme[i];
        } else if i > |scheme| {
          assert next[i] == host[i - |scheme| - 1];
        }
      }
    }
    assert next[0] == scheme[0];
    assert Prepare(next) == next;
    SchemeStripped(scheme, host);
    NoAuthorityHonoured(next);
  }

  /** A target is a path on this site: it starts with '/', and what follows
      it, once tabs and newlines are gone, is not a second '/' or '\'. */
  predicate IsLocalPath(next: string) {
    var u := RemoveTabsAndNewlines(next);
    |next| >= 1 && next[0] == '/' && !(|u| >= 2 && IsSlash(u[1]))
  }

  /** The guard as intended: `next` is honoured only when it is a path on this site. */
  function SafeRedirectTarget(next: Option<string>): (r: Redirect)
    ensures r.RedirectTo?
    ensures r.location == GENERATOR_PAGE ||
            (next == Some(r.location) && !MayLeaveOrigin(r.location) && NetlocOf(r.location) == Netloc(""))
  {
    if next.Some? && IsLocalPath(next.value) then
      LocalPathStaysOnSite(next.value);
      RedirectTo(next.value)
    else
      RedirectTo(GENERATOR_PAGE)
  }

  lemma LocalPathStaysOnSite(next: string)
    requires IsLocalPath(next)
    ensures !MayLeaveOrigin(next) && NetlocOf(next) == Netloc("")
  {
    assert next == "" + [next[0]] + next[1..];
    PrepareSkipsControls("", [next[0]], next[1..]);
    var u := Prepare(next);
    NoSchemeBeforeNonLetter(u);
    RemoveDistributes([next[0]], next[1..]);
    assert next == [next[0]] + next[1..];
    assert |u| >= 2 ==> u[1] == RemoveTabsAndNewlines(next)[1];
  }

  /** The corrected guard only ever narrows the original: whatever it
      honours, the original honours too. */
  lemma SafeRedirectNarrowsGuard(next: Option<string>)
    ensures SafeRedirectTarget(next) != RedirectTo(GENERATOR_PAGE) ==>
              RedirectTarget(next) == SafeRedirectTarget(next)
  {
    if next.Some? && IsLocalPath(next.value) {
      LocalPathStaysOnSite(next.value);
    }
  }

  /** A same-site path is honoured by the corrected guard, exactly as by the
      original one: the correction never sends such a user to the generator
      page instead. */
  lemma SafeRedirectFollowsLocalPath(next: string)
    requires |next| >= 1 && next[0] == '/'
    requires |next| >= 2 ==> !IsSlash(next[1]) && !IsTabOrNewline(next[1])
    ensures SafeRedirectTarget(Some(next)) == RedirectTo(next)
    ensures RedirectTarget(Some(next)) == RedirectTo(next)
  {
    PathNextHonoured(next);
    PlainPathIsLocal(next);
  }

  lemma PlainPathIsLocal(next: string)
    requires |next| >= 1 && next[0] == '/'
    requires |next| >= 2 ==> !IsSlash(next[1]) && !IsTabOrNewline(next[1])
    ensures IsLocalPath(next)
  {
    if |next| >= 2 {
      var start, rest := next[..2], next[2..];
      assert next == start + rest;
      assert forall i :: 0 <= i < |start| ==> !IsTabOrNewline(start[i]);
      assert RemoveTabsAndNewlines(start) == start;
      RemoveDistributes(start, rest);
      assert RemoveTabsAndNewlines(next)[1] == next[1];
    }
  }
}
