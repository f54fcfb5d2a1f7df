/**
 * The request handler: how `GET` and `POST` requests are answered. A request is
 * reduced to what the handler looks at (the client address, the path, the
 * token header and the decoded `url` field), an answer to its status, its JSON
 * body and the URL handed to `open`, if any.
 */
module Router {
  import opened Wrappers
  import opened Text
  import opened Configuration
  import opened OriginFilter
  import opened Opener

  const Version := "1.0.0"

  const ForbiddenClient := "Forbidden: Client IP not allowed"
  const BadToken := "Unauthorized: Bad token"
  const NotFound := "Not Found"
  const MissingUrl := "Missing 'url'"

  /**
   * What the handler reads from a request: `client_address[0]`, the path, the
   * `X-OpenInSafari-Token` header if sent, and the `url` field of the decoded body
   * when it is a string (JSON and form bodies alike). A missing field and a falsy
   * value (`null`, `false`, `0`, `[]`, `{}`) are all `None`: `or ""` turns each of
   * them into "".
   */
  datatype Request = Request(clientIp: string, path: string, tokenHeader: Option<string>, url: Option<string>)

  /** The JSON objects the handler writes. */
  datatype Body =
    | Failure(error: string)
    | Success(message: string)
    | Ping(ok: bool, version: string, clientIp: string, allowed: bool, tokenOk: bool)

  /** Status, body, and the URL handed to `subprocess.run` while answering, if any. */
  datatype Response = Response(status: int, body: Body, launched: Option<string>)

  /** `_extract_token()`: the header, or "" when it was not sent. */
  function ExtractToken(req: Request): string {
    req.tokenHeader.GetOr("")
  }

  /** The token check: passed when no token is configured, else the header must equal it. */
  predicate TokenAccepted(settings: Settings, req: Request) {
    settings.sharedToken == "" || ExtractToken(req) == settings.sharedToken
  }

  /** `_reject(code, msg)`. */
  function Reject(status: int, msg: string): Response {
    Response(status, Failure(msg), None)
  }

  /** `(data.get("url") or "").strip()`. */
  function RequestedUrl(req: Request): string {
    Strip(req.url.GetOr(""))
  }

  /** `do_GET`: `/ping` reports the client's standing; every other path is unknown. */
  function HandleGet(settings: Settings, req: Request): Response {
    if StartsWith(req.path, "/ping") then
      var tokenOk := TokenAccepted(settings, req);
      var allowed := Allowed(settings.allowedSubnets, req.clientIp);
      Response(200, Ping(tokenOk && allowed, Version, req.clientIp, allowed, tokenOk), None)
    else
      Reject(404, NotFound)
  }

  /**
   * `do_POST`: origin filter, then token, then path, then the `url` field, and
   * finally `open_in_safari` on the trimmed URL, where `subprocess.run` comes to `launch`.
   */
  function HandlePost(settings: Settings, req: Request, launch: Launch): Response {
    if !Allowed(settings.allowedSubnets, req.clientIp) then Reject(403, ForbiddenClient)
    else if !TokenAccepted(settings, req) then Reject(401, BadToken)
    else if !StartsWith(req.path, "/open") then Reject(404, NotFound)
    else
      var url := RequestedUrl(req);
      if url == "" then Reject(400, MissingUrl)
      else
        var outcome := OpenInSafari(url, settings.dryRun, launch);
        if outcome.ok then Response(200, Success(outcome.message), outcome.launched)
        else Response(500, Failure(outcome.message), outcome.launched)
  }

  /** Every gate the POST handler applies before it looks at the URL. */
  predicate PostGatesPass(settings: Settings, req: Request) {
    Allowed(settings.allowedSubnets, req.clientIp) && TokenAccepted(settings, req) && StartsWith(req.path, "/open")
  }

  /**
   * The refusals come in a fixed order: each status is given exactly when every
   * earlier check passed and this one failed.
   */
  lemma PostRefusalOrder(settings: Settings, req: Request, launch: Launch)
    ensures var r := HandlePost(settings, req, launch);
      (r.status == 403 <==> !Allowed(settings.allowedSubnets, req.clientIp))
      && (r.status == 401 <==> Allowed(settings.allowedSubnets, req.clientIp) && !TokenAccepted(settings, req))
      && (r.status == 404 <==>
            Allowed(settings.allowedSubnets, req.clientIp) && TokenAccepted(settings, req) && !StartsWith(req.path, "/open"))
      && (r.status == 400 <==> PostGatesPass(settings, req) && RequestedUrl(req) == "")
  {
    if PostGatesPass(settings, req) && RequestedUrl(req) != "" {
      PostStatuses(settings, req, launch);
      assert HandlePost(settings, req, launch).status in {200, 500};
    }
  }

  /** Only these statuses occur, and the body is a success exactly for 200. */
  lemma PostStatuses(settings: Settings, req: Request, launch: Launch)
    ensures var r := HandlePost(settings, req, launch);
      r.status in {200, 400, 401, 403, 404, 500}
      && (r.status == 200 <==> r.body.Success?) && (r.status != 200 <==> r.body.Failure?)
  {
    if Allowed(settings.allowedSubnets, req.clientIp) && TokenAccepted(settings, req) && StartsWith(req.path, "/open") && RequestedUrl(req) != "" {
      var o := OpenInSafari(RequestedUrl(req), settings.dryRun, launch);
      assert HandlePost(settings, req, launch) == (if o.ok then Response(200, Success(o.message), o.launched) else Response(500, Failure(o.message), o.launched));
    }
  }

  /**
   * The launch is attempted exactly when every gate passed, the trimmed URL uses a
   * permitted scheme and dry-run mode is off, and then with that trimmed URL.
   */
  lemma LaunchRequiresEveryGate(settings: Settings, req: Request, launch: Launch)
    ensures var r := HandlePost(settings, req, launch);
      (r.launched.Some? <==> PostGatesPass(settings, req) && PermittedScheme(RequestedUrl(req)) && !settings.dryRun)
      && (r.launched.Some? ==> r.launched.value == RequestedUrl(req))
  {
    var url := RequestedUrl(req);
    if PermittedScheme(url) {
      PermittedNonEmpty(url);
    }
    LaunchesOnlyPermitted(url, settings.dryRun, launch);
  }

  /** A POST is answered 200 exactly when every gate passed and `open_in_safari` reported success. */
  lemma PostOkExactly(settings: Settings, req: Request, launch: Launch)
    ensures HandlePost(settings, req, launch).status == 200 <==>
      PostGatesPass(settings, req) && PermittedScheme(RequestedUrl(req)) && (settings.dryRun || Succeeded(launch))
  {
    var url := RequestedUrl(req);
    if PermittedScheme(url) {
      PermittedNonEmpty(url);
    }
    OkExactly(url, settings.dryRun, launch);
  }

  /** A URL with another scheme passes every gate and is then refused with 500, never 400. */
  lemma SchemeRefusedAsServerError(settings: Settings, req: Request, launch: Launch)
    requires PostGatesPass(settings, req) && RequestedUrl(req) != "" && !PermittedScheme(RequestedUrl(req))
    ensures HandlePost(settings, req, launch) == Reject(500, SchemeRefused)
  {
  }

  /** A 401 is given only when a token is configured and the header differs from it. */
  lemma UnauthorizedOnlyWithToken(settings: Settings, req: Request, launch: Launch)
    ensures HandlePost(settings, req, launch).status == 401 ==>
      settings.sharedToken != "" && ExtractToken(req) != settings.sharedToken
  {
  }

  /** With no token configured the token check is off for both methods. */
  lemma EmptyTokenDisablesCheck(settings: Settings, req: Request, launch: Launch)
    requires settings.sharedToken == ""
    ensures HandlePost(settings, req, launch).status != 401
    ensures StartsWith(req.path, "/ping") ==> HandleGet(settings, req).body.tokenOk
  {
  }

  /** An absent header is read as "": it passes only when no token is configured. */
  lemma MissingHeaderPassesOnlyWithoutToken(settings: Settings, req: Request)
    requires req.tokenHeader.None?
    ensures TokenAccepted(settings, req) <==> settings.sharedToken == ""
  {
  }

  /**
   * `GET` never attempts a launch. `/ping` is answered 200 for every client, listed
   * or not, with a report of what the POST handler would make of its address and token.
   */
  lemma GetReports(settings: Settings, req: Request)
    ensures var r := HandleGet(settings, req);
      r.launched.None?
      && (r.status == 200 <==> StartsWith(req.path, "/ping"))
      && (r.status != 200 ==> r == Reject(404, NotFound))
      && (r.status == 200 ==>
            r.body.Ping? && r.body.version == Version && r.body.clientIp == req.clientIp
            && (r.body.allowed <==> Allowed(settings.allowedSubnets, req.clientIp))
            && (r.body.tokenOk <==> TokenAccepted(settings, req))
            && (r.body.ok <==> r.body.allowed && r.body.tokenOk))
  {
  }

  /**
   * The ping tells the truth: for any POST from the same client with the same
   * header, `allowed` says it passes the origin filter and `ok` says it passes
   * the token check as well.
   */
  lemma PingPredictsPost(settings: Settings, ping: Request, post: Request, launch: Launch)
    requires StartsWith(ping.path, "/ping")
    requires post.clientIp == ping.clientIp && post.tokenHeader == ping.tokenHeader
    ensures var p := HandleGet(settings, ping).body; var r := HandlePost(settings, post, launch);
      (p.allowed <==> r.status != 403) && (p.ok <==> r.status != 403 && r.status != 401)
  {
    PostRefusalOrder(settings, post, launch);
  }

  /**
   * A relay configured from the defaults and any environment demands the
   * token: a POST that attempts a launch sent a header equal to the configured token.
   */
  lemma LoadedRelayDemandsToken(env: Environment, req: Request, launch: Launch)
    ensures var s := Overridden(DefaultSettings, env);
      HandlePost(s, req, launch).launched.Some? ==> s.sharedToken != "" && req.tokenHeader == Some(s.sharedToken)
  {
    LoadedTokenNonEmpty(env);
  }

  /** In dry-run mode no request of either method attempts a launch. */
  lemma DryRunLaunchesNothing(settings: Settings, req: Request, launch: Launch)
    requires settings.dryRun
    ensures HandlePost(settings, req, launch).launched.None? && HandleGet(settings, req).launched.None?
  {
    LaunchRequiresEveryGate(settings, req, launch);
  }
}
