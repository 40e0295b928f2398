/** The cloud-storage side of the catalogue (lib/dropbox-integration.ts): the saved
    authorisation record, the decision to refresh the access token, and the string helpers
    used when an image is uploaded. Provider answers and the clock are inputs. */
module DropboxIntegration {
  import opened Wrappers
  import opened AsciiText

  /** The authorisation record kept under the "dropboxAuth" storage key. */
  datatype AuthState = AuthState(
    isAuthenticated: bool,
    accessToken: Option<string>,
    refreshToken: Option<string>,
    expiresAt: Option<int>)

  /** The record of a browser that never authorised, and the one logout writes. */
  const SignedOutState := AuthState(false, None, None, None)

  /** What the provider answered to a token request: the granted tokens and their lifetime
      in seconds, or a failure (a rejected code, a revoked refresh token, a network error). */
  datatype TokenResponse =
    | Granted(accessToken: string, refreshToken: Option<string>, expiresIn: int)
    | Refused

  /** How long before expiry a token is refreshed anyway: five minutes, in milliseconds. */
  const RefreshMargin: int := 5 * 60 * 1000

  /** The error message of a client request made without a usable token. */
  const NotAuthenticated := "Not authenticated with Dropbox"

  /** JavaScript truthiness of a `string | null`: neither null nor empty. */
  predicate Truthy(s: Option<string>) {
    s.Some? && s.value != ""
  }

  /** JavaScript truthiness of a `number | null` timestamp: neither null nor zero. */
  predicate TimeSet(t: Option<int>) {
    t.Some? && t.value != 0
  }

  /** `loadAuthState`: the saved record, or the signed-out one when nothing is saved. */
  function LoadAuthState(saved: Option<AuthState>): (s: AuthState)
    ensures saved.Some? ==> s == saved.value
    ensures saved.None? ==> !s.isAuthenticated && s.accessToken.None? && s.refreshToken.None? && s.expiresAt.None?
  {
    saved.GetOr(SignedOutState)
  }

  /** `isDropboxAuthenticated` on a loaded record. */
  predicate IsAuthenticated(s: AuthState) {
    s.isAuthenticated && Truthy(s.accessToken)
  }

  /** The record the code exchange saves, answered at time `now`; none when it failed. */
  function ExchangeResult(response: TokenResponse, now: int): (r: Option<AuthState>)
    ensures r.Some? <==> response.Granted?
    ensures r.Some? ==>
              && r.value.isAuthenticated
              && r.value.accessToken == Some(response.accessToken)
              && r.value.refreshToken == response.refreshToken
              && r.value.expiresAt == Some(now + response.expiresIn * 1000)
  {
    match response
    case Granted(access, refresh, expiresIn) => Some(AuthState(true, Some(access), refresh, Some(now + expiresIn * 1000)))
    case Refused => None
  }

  /** The stored token is used as it is: it expires more than five minutes after `now`. */
  predicate StillFresh(s: AuthState, now: int) {
    TimeSet(s.expiresAt) && s.expiresAt.value > now + RefreshMargin
  }

  /** One run of `refreshTokenIfNeeded`: the token it returns, whether it asked the provider,
      and the record it saves, if any. */
  datatype RefreshStep = RefreshStep(token: Option<string>, contacted: bool, written: Option<AuthState>)

  /** `refreshTokenIfNeeded` on the loaded record `s`, deciding at `now`, with the provider's
      `response` arriving at `answeredAt` (only read when the provider is asked). */
  function Refresh(s: AuthState, now: int, answeredAt: int, response: TokenResponse): (r: RefreshStep)
    // The provider is asked exactly when there is a refresh token and the stored one is not fresh.
    ensures r.contacted <==> s.isAuthenticated && Truthy(s.refreshToken) && !StillFresh(s, now)
    // Without asking, nothing is saved; the stored token comes back only when it is fresh.
    ensures !r.contacted ==> r.written.None?
    ensures !r.contacted ==> r.token == (if s.isAuthenticated && Truthy(s.refreshToken) then s.accessToken else None)
    // Asking saves a record exactly when the provider granted one, and returns its token.
    ensures r.contacted ==> (r.written.Some? <==> response.Granted?)
    ensures r.contacted && response.Refused? ==> r.token.None?
    ensures r.written.Some? ==> r.token == r.written.value.accessToken
  {
    if !s.isAuthenticated || !Truthy(s.refreshToken) then RefreshStep(None, false, None)
    else if StillFresh(s, now) then RefreshStep(s.accessToken, false, None)
    else
      match response
      case Granted(access, refresh, expiresIn) =>
        var kept := if Truthy(refresh) then refresh else s.refreshToken;
        RefreshStep(Some(access), true, Some(AuthState(true, Some(access), kept, Some(answeredAt + expiresIn * 1000))))
      case Refused => RefreshStep(None, true, None)
  }

  /** The guard of `getAuthenticatedClient`: a client for the token, or the error. */
  function ClientFor(token: Option<string>): (r: Result<string, string>)
    ensures r.Success? <==> Truthy(token)
    ensures r.Success? ==> Some(r.value) == token
    ensures r.Failure? ==> r.error == NotAuthenticated
  {
    if Truthy(token) then Success(token.value) else Failure(NotAuthenticated)
  }

  /** Without a refresh token (or when signed out) nothing is returned and the provider is
      never asked, whatever the clock and the provider would say. */
  lemma RefreshNeedsRefreshToken(s: AuthState, now: int, answeredAt: int, response: TokenResponse)
    requires !s.isAuthenticated || !Truthy(s.refreshToken)
    ensures Refresh(s, now, answeredAt, response) == RefreshStep(None, false, None)
    ensures ClientFor(Refresh(s, now, answeredAt, response).token).Failure?
  {
  }

  /** With a refresh token, the stored access token is returned untouched exactly when it is
      fresh; at the five-minute boundary, or with no or a zero expiry, the provider is asked. */
  lemma RefreshKeepsFreshToken(s: AuthState, now: int, answeredAt: int, response: TokenResponse)
    requires s.isAuthenticated && Truthy(s.refreshToken)
    ensures !Refresh(s, now, answeredAt, response).contacted <==> TimeSet(s.expiresAt) && s.expiresAt.value > now + 300000
    ensures StillFresh(s, now) ==> Refresh(s, now, answeredAt, response) == RefreshStep(s.accessToken, false, None)
    ensures s.expiresAt == Some(now + 300000) ==> Refresh(s, now, answeredAt, response).contacted
    ensures s.expiresAt.None? || s.expiresAt == Some(0) ==> Refresh(s, now, answeredAt, response).contacted
  {
  }

  /** A granted refresh saves an authenticated record with the new access token, the new
      refresh token when one came back (else the old one), and an expiry counted from the
      answer; it returns the new access token. */
  lemma RefreshGranted(s: AuthState, now: int, answeredAt: int, access: string, refresh: Option<string>, expiresIn: int)
    requires s.isAuthenticated && Truthy(s.refreshToken) && !StillFresh(s, now)
    ensures var r := Refresh(s, now, answeredAt, Granted(access, refresh, expiresIn));
      && r.token == Some(access)
      && r.written == Some(AuthState(true, Some(access), if Truthy(refresh) then refresh else s.refreshToken,
                                     Some(answeredAt + expiresIn * 1000)))
      && Truthy(r.written.value.refreshToken)
  {
  }

  /** A refused refresh returns nothing, saves nothing, and the client guard then fails. */
  lemma RefreshRefused(s: AuthState, now: int, answeredAt: int)
    requires s.isAuthenticated && Truthy(s.refreshToken) && !StillFresh(s, now)
    ensures Refresh(s, now, answeredAt, Refused) == RefreshStep(None, true, None)
    ensures ClientFor(Refresh(s, now, answeredAt, Refused).token) == Failure(NotAuthenticated)
  {
  }

  /** After a granted code exchange the browser counts as authenticated exactly when the
      access token is not empty. */
  lemma ExchangeAuthenticates(response: TokenResponse, now: int)
    requires response.Granted?
    ensures IsAuthenticated(LoadAuthState(ExchangeResult(response, now))) <==> response.accessToken != ""
  {
  }

  /** Logging out and never having authorised look the same: not authenticated, no tokens,
      and no expiry. */
  lemma SignedOutIsUnauthenticated()
    ensures LoadAuthState(None) == LoadAuthState(Some(SignedOutState))
    ensures !IsAuthenticated(LoadAuthState(Some(SignedOutState)))
    ensures Refresh(SignedOutState, 0, 0, Refused).token.None?
  {
  }

  /** The browser's "dropboxAuth" storage slot and the operations that read and write it. */
  class AuthStore {
    /** The record saved under "dropboxAuth", if any. */
    var saved: Option<AuthState>

    /** A browser with whatever record it already holds. */
    constructor(stored: Option<AuthState>)
      ensures saved == stored
    {
      saved := stored;
    }

    /** `isDropboxAuthenticated`. */
    function IsDropboxAuthenticated(): (b: bool)
      reads this
      ensures b <==> LoadAuthState(saved).isAuthenticated && Truthy(LoadAuthState(saved).accessToken)
    {
      IsAuthenticated(LoadAuthState(saved))
    }

    /** `handleOAuthCallback`: the provider's answer to the code exchange arrives at `now`;
        a grant is saved and reported, a failure saves nothing. */
    method HandleOAuthCallback(response: TokenResponse, now: int) returns (ok: bool)
      modifies this
      ensures ok <==> response.Granted?
      ensures ok ==> saved == ExchangeResult(response, now)
      ensures !ok ==> saved == old(saved)
    {
      var next := ExchangeResult(response, now);
      if next.Some? {
        saved := next;
        ok := true;
      } else {
        ok := false;
      }
    }

    /** `refreshTokenIfNeeded`, deciding at `now` with the provider's `response` arriving at
        `answeredAt`; `contacted` says whether the provider was asked. */
    method RefreshTokenIfNeeded(now: int, answeredAt: int, response: TokenResponse) returns (token: Option<string>, contacted: bool)
      modifies this
      ensures var r := Refresh(LoadAuthState(old(saved)), now, answeredAt, response);
        && token == r.token && contacted == r.contacted
        && saved == (if r.written.Some? then r.written else old(saved))
    {
      var s := LoadAuthState(saved);
      if !s.isAuthenticated || !Truthy(s.refreshToken) {
        return None, false;
      }
      if TimeSet(s.expiresAt) && s.expiresAt.value > now + RefreshMargin {
        return s.accessToken, false;
      }
      contacted := true;
      match response {
        case Granted(access, refresh, expiresIn) =>
          var kept := if Truthy(refresh) then refresh else s.refreshToken;
          saved := Some(AuthState(true, Some(access), kept, Some(answeredAt + expiresIn * 1000)));
          token := Some(access);
        case Refused =>
          token := None;
      }
    }

    /** `getAuthenticatedClient`: a refresh when needed, then the guard on the token. */
    method GetAuthenticatedClient(now: int, answeredAt: int, response: TokenResponse) returns (r: Result<string, string>)
      modifies this
      ensures var step := Refresh(LoadAuthState(old(saved)), now, answeredAt, response);
        && r == ClientFor(step.token)
        && saved == (if step.written.Some? then step.written else old(saved))
    {
      var token, _ := RefreshTokenIfNeeded(now, answeredAt, response);
      r := ClientFor(token);
    }

    /** `logoutFromDropbox`: the signed-out record replaces whatever was saved. */
    method LogoutFromDropbox()
      modifies this
      ensures saved == Some(SignedOutState)
      ensures !IsDropboxAuthenticated()
    {
      saved := Some(SignedOutState);
    }
  }

  /** The characters an uploaded image's name may keep: ASCII letters, digits and the dot. */
  predicate FileNameChar(c: char) {
    ('a' <= c <= 'z') || ('A' <= c <= 'Z') || ('0' <= c <= '9') || c == '.'
  }

  /** `name.replace(/[^a-zA-Z0-9.]/g, "_")`. */
  function SanitizeFileName(name: string): string {
    seq(|name|, k requires 0 <= k < |name| => if FileNameChar(name[k]) then name[k] else '_')
  }

  /** The folder uploaded images go to. */
  const ImagesFolder := "/film-database/images/"

  /** The stored name of an image uploaded at `now`: the timestamp, an underscore, and the
      sanitised original name. */
  function ImageFileName(now: nat, name: string): string {
    NatToString(now) + "_" + SanitizeFileName(name)
  }

  /** The path an image uploaded at `now` is written to. */
  function ImagePath(now: nat, name: string): string {
    ImagesFolder + ImageFileName(now, name)
  }

  /** Sanitising keeps the length, keeps every allowed character where it is, and puts an
      underscore in place of every other one. */
  lemma SanitizeFileNameFacts(name: string)
    ensures |SanitizeFileName(name)| == |name|
    ensures forall k :: 0 <= k < |name| && FileNameChar(name[k]) ==> SanitizeFileName(name)[k] == name[k]
    ensures forall k :: 0 <= k < |name| && !FileNameChar(name[k]) ==> SanitizeFileName(name)[k] == '_'
    ensures forall k :: 0 <= k < |name| ==> FileNameChar(SanitizeFileName(name)[k]) || SanitizeFileName(name)[k] == '_'
  {
  }

  /** A sanitised name holds no path separator, and sanitising it again changes nothing. */
  lemma SanitizeFileNameIdempotent(name: string)
    ensures SanitizeFileName(SanitizeFileName(name)) == SanitizeFileName(name)
    ensures '/' !in SanitizeFileName(name)
  {
    var s := SanitizeFileName(name);
    assert forall k :: 0 <= k < |s| ==> s[k] != '/';
  }

  /** The image goes directly into the images folder, and its stored name starts with the
      upload timestamp, which reads back from the digits before the first underscore. */
  lemma {:induction false} ImagePathFacts(now: nat, name: string)
    ensures ImagePath(now, name) == ImagesFolder + NatToString(now) + "_" + SanitizeFileName(name)
    ensures '/' !in ImageFileName(now, name)
    ensures |ImageFileName(now, name)| == |NatToString(now)| + 1 + |name|
    ensures var n := ImageFileName(now, name); var d := |NatToString(now)|;
      && n[d] == '_'
      && (forall k :: 0 <= k < d ==> '0' <= n[k] <= '9')
      && ParseNat(n[..d]) == now
  {
    var digits := NatToString(now);
    var n := ImageFileName(now, name);
    SanitizeFileNameIdempotent(name);
    assert n == digits + ("_" + SanitizeFileName(name));
    assert n[..|digits|] == digits;
    assert forall k :: 0 <= k < |n| ==> n[k] != '/' by {
      forall k | 0 <= k < |n| ensures n[k] != '/' {
        if k > |digits| {
          assert n[k] == SanitizeFileName(name)[k - |digits| - 1];
        }
      }
    }
    ParseNatToString(now);
  }

  /** `sharedUrl.replace("www.dropbox.com", "dl.dropboxusercontent.com").replace("?dl=0", "")`:
      the shared link turned into a direct download link. */
  function DirectLink(url: string): string {
    ReplaceFirst(ReplaceFirst(url, "www.dropbox.com", "dl.dropboxusercontent.com"), "?dl=0", "")
  }

  /** A link holding neither the sharing host nor the "?dl=0" flag is left as it is. */
  lemma DirectLinkUnchanged(url: string)
    requires !Contains(url, "www.dropbox.com") && !Contains(url, "?dl=0")
    ensures DirectLink(url) == url
  {
  }

  /** A shared link `p + "www.dropbox.com" + m + "?dl=0"` in which the host and the flag occur
      first where shown becomes `p + "dl.dropboxusercontent.com" + m`. */
  lemma DirectLinkOfSharedLink(p: string, m: string)
    requires !Contains(p + "www.dropbox.co", "www.dropbox.com")
    requires !Contains(p + "dl.dropboxusercontent.com" + m + "?dl=", "?dl=0")
    ensures DirectLink(p + "www.dropbox.com" + m + "?dl=0") == p + "dl.dropboxusercontent.com" + m
  {
    var host, direct, flag := "www.dropbox.com", "dl.dropboxusercontent.com", "?dl=0";
    assert host[..|host| - 1] == "www.dropbox.co";
    assert flag[..|flag| - 1] == "?dl=";
    ReplaceFirstLeading(p, host, m + flag, direct);
    assert p + host + m + flag == p + host + (m + flag);
    assert p + direct + (m + flag) == (p + direct + m) + flag;
    ReplaceFirstLeading(p + direct + m, flag, "", "");
    assert p + direct + m + flag + "" == p + direct + m + flag;
    assert p + direct + m + "" + "" == p + direct + m;
  }
}
