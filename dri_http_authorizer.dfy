/** The decision logic of the DRI HTTP authorizer: configuration check,
    request type to action, probe URL with the caller's credentials, and
    probe outcome to decision. The HTTP probe, the base64/ASCII decoding of
    the credentials and the web framework's parsing of the request into an
    identifier and request type are parameters. */
module DriHttpAuthorizer {
  import opened Wrappers
  import opened PyStr

  /** The exceptions the authorizer's own code raises or lets through. */
  datatype Error =
    | ConfigError(message: string)
    /** The credential payload is not base64 of ASCII text. */
    | DecodeError
    | IndexError(message: string)

  /** What the web framework hands over: the request headers (by their
      canonical names) and the identifier and request type parsed from it. */
  datatype Request = Request(headers: map<string, string>, requestType: string, ident: string)

  /** What the HEAD request to the authorization service ends with: a
      response status, or the HTTP client refusing a URL without a scheme. */
  datatype ProbeOutcome = Status(code: int) | MissingSchema

  /** The field `__init__` sets; it does not change afterwards. */
  datatype Authorizer = Authorizer(authorizedUrl: string)

  /** A decision is the dictionary `{"status": ...}`. */
  type Decision = map<string, string>

  const Allowed: Decision := map["status" := "ok"]
  const Denied: Decision := map["status" := "deny"]

  const ClassName: string := "DRIHttpAuthorizer"
  const MandatoryKeys: seq<string> := ["authorized_url"]
  /** The message of the ConfigError for a configuration without `authorized_url`. */
  const MissingUrlMessage: string := "Missing mandatory parameters for " + ClassName + ": " + "authorized_url"
  const AuthorizationHeader: string := "Authorization"
  const IndexErrorMessage: string := "list index out of range"

  /** The keys of `keys` that `config` lacks. */
  function MissingKeys(keys: seq<string>, config: map<string, string>): (m: seq<string>)
    ensures forall k :: k in m <==> k in keys && k !in config
    ensures |m| <= |keys|
  {
    if keys == [] then []
    else (if keys[0] in config then [] else [keys[0]]) + MissingKeys(keys[1..], config)
  }

  /** `_validate_config`: a ConfigError naming the mandatory keys that are
      absent, which happens exactly when `authorized_url` is absent. */
  function ValidateConfig(config: map<string, string>): (r: Result<(), Error>)
    ensures r.Err? <==> "authorized_url" !in config
    ensures r.Err? ==> r.error == ConfigError(MissingUrlMessage)
  {
    var missing := MissingKeys(MandatoryKeys, config);
    if |missing| > 0 then
      assert missing == ["authorized_url"] by {
        assert MandatoryKeys[1..] == [];
      }
      assert Join(missing, ",") == "authorized_url";
      Err(ConfigError("Missing mandatory parameters for " + ClassName + ": " + Join(missing, ",")))
    else Ok(())
  }

  /** `DRIHttpAuthorizer.__init__`: validate, then keep the service URL. */
  function New(config: map<string, string>): (r: Result<Authorizer, Error>)
    ensures r.Ok? <==> "authorized_url" in config
    ensures r.Ok? ==> r.value.authorizedUrl == config["authorized_url"]
    ensures r.Err? ==> r.error == ConfigError(MissingUrlMessage)
  {
    match ValidateConfig(config)
    case Err(e) => Err(e)
    case Ok(_) => Ok(Authorizer(if "authorized_url" in config then config["authorized_url"] else ""))
  }

  /** `is_protected`: every image is protected. */
  function IsProtected<T>(info: T): (p: bool)
    ensures p
  {
    true
  }

  /** The action asked of the service: `show` for an image request and
      `info` for an info request or any other request type. */
  function Action(requestType: string): (action: string)
    ensures action == "show" <==> requestType == "image"
    ensures action != "show" ==> action == "info"
  {
    if requestType == "info" then "info"
    else if requestType == "image" then "show"
    else "info"
  }

  /** `header.replace('Basic', '').strip()`: the payload to base64-decode. */
  function CredentialPayload(header: string): (p: string)
    ensures |p| <= |header|
    ensures p == [] || (!IsSpace(p[0]) && !IsSpace(p[|p| - 1]))
  {
    Strip(Replace(header, "Basic", ""))
  }

  /** A header `Basic <token>` whose token holds no `Basic` and has no
      whitespace at its ends yields the token itself. */
  lemma BasicPayload(token: string)
    requires !Contains(token, "Basic")
    requires token == [] || (!IsSpace(token[0]) && !IsSpace(token[|token| - 1]))
    ensures CredentialPayload("Basic " + token) == token
  {
    var spaced := [' '] + token;
    assert "Basic " + token == "Basic" + spaced;
    var replaced := Replace("Basic" + spaced, "Basic", "");
    assert replaced == spaced by {
      ReplaceLeading("Basic", spaced, "");
      ReplaceSkips(' ', token, "Basic", "");
      ReplaceAbsent(token, "Basic", "");
    }
    StripLeadingSpace(' ', token);
  }

  /** The query parameters built from the decoded `user:token` text; fewer
      than two `:`-separated parts is Python's IndexError. */
  function CredentialParams(decoded: string): (r: Result<string, Error>)
    ensures r.Err? <==> ':' !in decoded
    ensures r.Err? ==> r.error == IndexError(IndexErrorMessage)
  {
    var parts := Split(decoded, ':');
    SplitManyIff(decoded, ':');
    if |parts| < 2 then Err(IndexError(IndexErrorMessage))
    else Ok("&user_email=" + parts[0] + "&user_token=" + parts[1])
  }

  /** For `e:t` with no `:` in either part the parameters are exactly
      `&user_email=e&user_token=t`. */
  lemma CredentialParamsOfPair(e: string, t: string)
    requires ':' !in e && ':' !in t
    ensures CredentialParams(e + ":" + t) == Ok("&user_email=" + e + "&user_token=" + t)
  {
    SplitTwo(e, ':', t);
  }

  /** Text after a second `:` is dropped: a token containing `:` is cut. */
  lemma CredentialParamsDropsRest(e: string, t: string, rest: string)
    requires ':' !in e && ':' !in t
    ensures CredentialParams(e + ":" + t + ":" + rest) == Ok("&user_email=" + e + "&user_token=" + t)
  {
    SplitPrefix(e, ':', t + ":" + rest);
    SplitPrefix(t, ':', rest);
    assert e + ":" + t + ":" + rest == e + [':'] + (t + ":" + rest);
    assert t + ":" + rest == t + [':'] + rest;
  }

  /** `_extract_credentials`: decode the payload, then build the parameters.
      `decode` stands for base64 decoding followed by ASCII decoding; `None`
      is a payload either step rejects. */
  function ExtractCredentials(header: string, decode: string -> Option<string>): (r: Result<string, Error>)
    ensures r.Ok? <==> decode(CredentialPayload(header)).Some? && ':' in decode(CredentialPayload(header)).value
    ensures decode(CredentialPayload(header)).None? ==> r == Err(DecodeError)
    ensures decode(CredentialPayload(header)).Some? ==> r == CredentialParams(decode(CredentialPayload(header)).value)
    ensures decode(CredentialPayload(header)).Some? && ':' !in decode(CredentialPayload(header)).value ==>
              r == Err(IndexError(IndexErrorMessage))
  {
    match decode(CredentialPayload(header))
    case None => Err(DecodeError)
    case Some(text) => CredentialParams(text)
  }

  /** The decision for a probe outcome: allowed exactly on status 200;
      any other status, and a URL without a scheme, deny. */
  function Decide(outcome: ProbeOutcome): (d: Decision)
    ensures d == Allowed <==> outcome == Status(200)
    ensures d == Allowed || d == Denied
  {
    AllowedIsNotDenied();
    match outcome
    case Status(code) => if code == 200 then Allowed else Denied
    case MissingSchema => Denied
  }

  /** The two decisions are different dictionaries. */
  lemma AllowedIsNotDenied()
    ensures Allowed != Denied
  {
    assert Allowed["status"] != Denied["status"];
  }

  /** `is_authorized`: extract the credentials when an Authorization header
      is present, probe `<authorized_url>/<ident>?method=<action>` followed by
      them, and decide from the probe. `probe` stands for the HEAD request. */
  method IsAuthorized(a: Authorizer, request: Request, decode: string -> Option<string>,
                      probe: string -> ProbeOutcome)
    returns (res: Result<Decision, Error>)
    ensures AuthorizationHeader !in request.headers ==>
              res == Ok(Decide(probe(a.authorizedUrl + "/" + request.ident + "?method=" + Action(request.requestType))))
    ensures AuthorizationHeader in request.headers ==>
              var params := ExtractCredentials(request.headers[AuthorizationHeader], decode);
              res == if params.Err? then Err(params.error)
                     else Ok(Decide(probe(a.authorizedUrl + "/" + request.ident + "?method=" +
                                          Action(request.requestType) + params.value)))
    ensures res.Ok? ==> res.value == Allowed || res.value == Denied
  {
    var authParams: Option<string> := None;
    if AuthorizationHeader in request.headers {
      var header := request.headers[AuthorizationHeader];
      var extracted := ExtractCredentials(header, decode);
      if extracted.Err? {
        return Err(extracted.error);
      }
      authParams := Some(extracted.value);
    }
    var action := Action(request.requestType);
    var authFp := a.authorizedUrl + "/" + request.ident + "?method=" + action;
    if authParams.Some? {
      authFp := authFp + authParams.value;
    }
    res := Ok(Decide(probe(authFp)));
  }

  /** `get_services_info`: no service is advertised. */
  function GetServicesInfo<T>(info: T): (s: map<string, map<string, string>>)
    ensures s.Keys == {"service"} && |s["service"]| == 0
  {
    map["service" := map[]]
  }

  /** An info request for `img1` against `https://auth.example` probes
      `https://auth.example/img1?method=info`; 200 allows, 403 denies. */
  method ExampleProbe() returns (allowed: Result<Decision, Error>, denied: Result<Decision, Error>)
    ensures allowed == Ok(Allowed) && denied == Ok(Denied)
  {
    var a := Authorizer("https://auth.example");
    var request := Request(map[], "info", "img1");
    var decode := (s: string) => None;
    allowed := IsAuthorized(a, request, decode,
                                (url: string) => if url == "https://auth.example/img1?method=info" then Status(200) else Status(404));
    denied := IsAuthorized(a, request, decode, (url: string) => Status(403));
  }
}
