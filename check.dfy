/**
 * The `PUT /check` handler: a chain of guards over the request, each of
 * which may end the request with an HTTP error, followed by recording
 * the check and asking for the current version of the package.
 *
 * The collaborators `normalize` and `standard_release` come from a
 * helpers module that is not part of this model; they are parameters
 * here (`Helpers`), so every result below holds whatever they compute.
 * `record_check` and `get_current_version` are effects: the outcome
 * `Ok` carries the tuple handed to `record_check` and the pre-release
 * flag handed to `get_current_version`.
 */
module CheckEndpoint {
  import opened Wrappers
  import opened Text

  /** The packages whose checks are accepted. */
  const ALLOWED_PACKAGES: set<string> :=
    {"datacleaner", "hackday_bot", "praw", "prawtools", "redditanalysis",
     "statsbot", "topraw4", "tpot", "xrff2csv"}

  /** The token the User-Agent header must contain. */
  const AGENT_TOKEN: string := "python-requests"

  /** The keys the JSON body must have. */
  const REQUIRED_KEYS: set<string> :=
    {"package_name", "package_version", "platform", "python_version"}

  /**
   * A request as the handler sees it: the User-Agent header (absent or
   * present), the decoded JSON object body (absent when the body is
   * missing or not JSON), and the client's address.
   */
  datatype Request = Request(
    userAgent: Option<string>,
    json: Option<map<string, string>>,
    remoteAddr: string)

  /** The helper functions the handler calls, whose bodies are not modelled. */
  datatype Helpers = Helpers(
    normalize: string -> string,
    standardRelease: string -> bool)

  /** The arguments of one `record_check` call. */
  datatype CheckRecord = CheckRecord(
    package: string,
    version: string,
    platform: string,
    pythonVersion: string,
    address: string)

  /**
   * How a check ends: 403, 400, 422, or success, which records `record`
   * and answers with the current version from the pre-release channel
   * when `prerelease` holds and from the stable channel otherwise.
   */
  datatype Outcome =
    | Forbidden
    | BadRequest
    | Unprocessable
    | Ok(record: CheckRecord, prerelease: bool)

  /** The HTTP status of each outcome. */
  function StatusCode(o: Outcome): int {
    match o
    case Forbidden => 403
    case BadRequest => 400
    case Unprocessable => 422
    case Ok(_, _) => 200
  }

  /** The User-Agent guard: the header, or "" when absent, contains the token. */
  predicate AgentAccepted(req: Request) {
    Contains(req.userAgent.GetOr(""), AGENT_TOKEN)
  }

  /** The body guard: a non-empty JSON object holding every required key. */
  predicate HasRequiredKeys(req: Request) {
    req.json.Some? && req.json.value != map[] && REQUIRED_KEYS <= req.json.value.Keys
  }

  /** The package name that is allow-listed and recorded: the last dotted segment, normalized. */
  function PackageName(body: map<string, string>, h: Helpers): string
    requires "package_name" in body
  {
    h.normalize(AfterLastDot(body["package_name"]))
  }

  /**
   * The handler.  Guards run in this order, each only when those before
   * it passed: the agent token (403), the required keys (400), the
   * allow-listed package (422), the non-blank cleaned fields (400).
   */
  function Check(req: Request, h: Helpers): (o: Outcome)
    ensures o.Ok? ==> o.record.package in ALLOWED_PACKAGES
    ensures o.Ok? ==> o.record.version != [] && o.record.platform != [] && o.record.pythonVersion != []
    ensures o.Ok? ==> o.record.address == req.remoteAddr
    ensures o.Ok? ==> o.prerelease == !h.standardRelease(o.record.version)
    ensures o.Ok? ==> !IsSpace(o.record.version[0]) && !IsSpace(o.record.version[|o.record.version| - 1])
  {
    if !AgentAccepted(req) then Forbidden
    else if !HasRequiredKeys(req) then BadRequest
    else
      var body := req.json.value;
      Admit(PackageName(body, h), body["package_version"], body["platform"],
            body["python_version"], req.remoteAddr, h)
  }

  /**
   * The guards on the body's values, once the agent and the keys have
   * passed: `name` is the cleaned package name, the others are raw.
   */
  function Admit(name: string, rawVersion: string, rawPlatform: string, rawPythonVersion: string,
                 address: string, h: Helpers): Outcome
  {
    if name !in ALLOWED_PACKAGES then Unprocessable
    else
      var version := Strip(rawVersion);
      var platform := h.normalize(rawPlatform);
      var pythonVersion := h.normalize(rawPythonVersion);
      if version == [] || platform == [] || pythonVersion == [] then BadRequest
      else Ok(CheckRecord(name, version, platform, pythonVersion, address),
              !h.standardRelease(version))
  }

  /** Once the agent and the keys pass, the outcome is `Admit`'s on the body's values. */
  lemma CheckAdmits(req: Request, h: Helpers)
    requires AgentAccepted(req) && HasRequiredKeys(req)
    ensures var body := req.json.value;
      Check(req, h) == Admit(PackageName(body, h), body["package_version"], body["platform"],
                             body["python_version"], req.remoteAddr, h)
  {
  }

  /**
   * Once the agent and the keys pass, only the cleaned package name, the
   * three raw values and the address decide the outcome: neither the
   * exact User-Agent text nor any other key of the body matters.
   */
  lemma OutcomeDependsOnlyOnCheckedFields(a: Request, b: Request, h: Helpers)
    requires AgentAccepted(a) && HasRequiredKeys(a)
    requires AgentAccepted(b) && HasRequiredKeys(b)
    requires PackageName(a.json.value, h) == PackageName(b.json.value, h)
    requires a.json.value["package_version"] == b.json.value["package_version"]
    requires a.json.value["platform"] == b.json.value["platform"]
    requires a.json.value["python_version"] == b.json.value["python_version"]
    requires a.remoteAddr == b.remoteAddr
    ensures Check(a, h) == Check(b, h)
  {
    CheckAdmits(a, h);
    CheckAdmits(b, h);
  }

  /** A User-Agent other than the library's, such as `not_requests`, gets 403. */
  lemma NotRequestsAgentIsForbidden(json: Option<map<string, string>>, address: string, h: Helpers)
    ensures StatusCode(Check(Request(Some("not_requests"), json, address), h)) == 403
  {
    var agent := "not_requests";
    ContainsIffOccurs(agent, AGENT_TOKEN);
    assert |agent| < |AGENT_TOKEN|;
    assert forall i :: !OccursAt(agent, AGENT_TOKEN, i);
  }

  /**
   * 403 exactly when the User-Agent (or "" when absent) has no occurrence
   * of the token, whatever the body holds.
   */
  lemma ForbiddenIffNoAgentToken(req: Request, h: Helpers)
    ensures Check(req, h) == Forbidden <==> !exists i :: OccursAt(req.userAgent.GetOr(""), AGENT_TOKEN, i)
  {
    ContainsIffOccurs(req.userAgent.GetOr(""), AGENT_TOKEN);
  }

  /** An accepted agent with no body, an empty body or a missing key gets 400. */
  lemma MissingKeyIsBadRequest(req: Request, h: Helpers)
    requires AgentAccepted(req)
    requires req.json.None? || exists k :: k in REQUIRED_KEYS && k !in req.json.value
    ensures Check(req, h) == BadRequest
  {
  }

  /** The request with its JSON field `key` set to `value`. */
  function WithField(req: Request, key: string, value: string): (r: Request)
    requires req.json.Some?
    ensures r.json.Some? && r.json.value.Keys == req.json.value.Keys + {key}
  {
    req.(json := Some(req.json.value[key := value]))
  }

  /**
   * A dotted package name is treated exactly like its last segment:
   * `resources.lib.modules.praw` gives the same outcome as `praw`.
   */
  lemma DottedPackageNameLikeLastSegment(req: Request, h: Helpers, prefix: string, name: string)
    requires req.json.Some?
    ensures Check(WithField(req, "package_name", prefix + "." + name), h)
         == Check(WithField(req, "package_name", name), h)
  {
    var dotted := WithField(req, "package_name", prefix + "." + name);
    var plain := WithField(req, "package_name", name);
    assert AgentAccepted(dotted) == AgentAccepted(plain);
    assert HasRequiredKeys(dotted) == HasRequiredKeys(plain);
    if AgentAccepted(plain) && HasRequiredKeys(plain) {
      var b1, b2 := dotted.json.value, plain.json.value;
      assert PackageName(b1, h) == PackageName(b2, h) by {
        DottedPathReducesToLastSegment(prefix, name);
      }
      assert b1["package_version"] == b2["package_version"];
      assert b1["platform"] == b2["platform"];
      assert b1["python_version"] == b2["python_version"];
      CheckAdmits(dotted, h);
      CheckAdmits(plain, h);
    }
  }

  /**
   * 422 exactly when the agent and the keys pass and the cleaned package
   * name is not allow-listed; the blank-field guard comes later, so a
   * blank version, platform or Python version does not change this.
   */
  lemma UnprocessableIffUnknownPackage(req: Request, h: Helpers)
    ensures Check(req, h) == Unprocessable <==>
      AgentAccepted(req) && HasRequiredKeys(req) &&
      PackageName(req.json.value, h) !in ALLOWED_PACKAGES
  {
  }

  /**
   * An empty package name is refused as unknown (422), not as blank, when
   * `normalize` maps "" to "" as the helper is meant to.
   */
  lemma EmptyPackageNameIsUnprocessable(req: Request, h: Helpers)
    requires AgentAccepted(req) && HasRequiredKeys(req)
    requires req.json.value["package_name"] == ""
    requires h.normalize("") == ""
    ensures Check(req, h) == Unprocessable
  {
    EmptyNameNotAllowed();
    CheckAdmits(req, h);
    assert PackageName(req.json.value, h) == "";
  }

  /** The last segment of "" is "", and "" is not an allow-listed package. */
  lemma EmptyNameNotAllowed()
    ensures AfterLastDot("") == ""
    ensures "" !in ALLOWED_PACKAGES
  {
    assert forall n :: n in ALLOWED_PACKAGES ==> |n| > 0;
  }

  /**
   * With the earlier guards passed, 400 exactly when the version is all
   * whitespace or the normalized platform or Python version is empty.
   */
  lemma BlankFieldIsBadRequest(req: Request, h: Helpers)
    requires AgentAccepted(req) && HasRequiredKeys(req)
    requires PackageName(req.json.value, h) in ALLOWED_PACKAGES
    ensures Check(req, h) == BadRequest <==>
      AllSpace(req.json.value["package_version"]) ||
      h.normalize(req.json.value["platform"]) == "" ||
      h.normalize(req.json.value["python_version"]) == ""
  {
  }

  /**
   * The check is recorded (outcome `Ok`) exactly when every guard
   * passes, and what is recorded is the cleaned values with the client's
   * address; the version lookup is then asked for the pre-release channel
   * exactly when the stripped version is not a standard release.
   */
  lemma RecordedExactlyWhenAllGuardsPass(req: Request, h: Helpers)
    ensures Check(req, h).Ok? <==>
      AgentAccepted(req) && HasRequiredKeys(req) &&
      PackageName(req.json.value, h) in ALLOWED_PACKAGES &&
      !AllSpace(req.json.value["package_version"]) &&
      h.normalize(req.json.value["platform"]) != "" &&
      h.normalize(req.json.value["python_version"]) != ""
    ensures Check(req, h).Ok? ==>
      var body := req.json.value;
      Check(req, h).record ==
        CheckRecord(PackageName(body, h), Strip(body["package_version"]),
                    h.normalize(body["platform"]), h.normalize(body["python_version"]),
                    req.remoteAddr) &&
      Check(req, h).prerelease == !h.standardRelease(Strip(body["package_version"]))
  {
    if AgentAccepted(req) && HasRequiredKeys(req) {
      var body := req.json.value;
      var name := PackageName(body, h);
      CheckAdmits(req, h);
      AdmitOkIffClean(name, body["package_version"], body["platform"],
                      body["python_version"], req.remoteAddr, h);
    }
  }

  /** `Admit` succeeds exactly when the name is allowed and no cleaned value is blank. */
  lemma AdmitOkIffClean(name: string, rawVersion: string, rawPlatform: string,
                        rawPythonVersion: string, address: string, h: Helpers)
    ensures Admit(name, rawVersion, rawPlatform, rawPythonVersion, address, h).Ok? <==>
      name in ALLOWED_PACKAGES && !AllSpace(rawVersion) &&
      h.normalize(rawPlatform) != "" && h.normalize(rawPythonVersion) != ""
    ensures Admit(name, rawVersion, rawPlatform, rawPythonVersion, address, h).Ok? ==>
      Admit(name, rawVersion, rawPlatform, rawPythonVersion, address, h)
        == Ok(CheckRecord(name, Strip(rawVersion), h.normalize(rawPlatform),
                          h.normalize(rawPythonVersion), address),
              !h.standardRelease(Strip(rawVersion)))
  {
    assert Strip(rawVersion) == [] <==> AllSpace(rawVersion);
  }

  /** The body a client library sends, with the given package name and version. */
  function ClientBody(name: string, version: string): map<string, string> {
    map["package_name" := name, "package_version" := version,
        "platform" := "darwin-16.1.0-x86_64-64bit", "python_version" := "3.5"]
  }

  /**
   * A well-formed check from a client library for an allow-listed package
   * `name`, whose cleaned values `normalize` leaves alone, is recorded as
   * sent and answered from the channel `standard_release` picks.
   */
  lemma ClientCheckAccepted(h: Helpers, rawName: string, name: string, version: string, address: string)
    requires h.normalize(AfterLastDot(rawName)) == name && name in ALLOWED_PACKAGES
    requires h.normalize("darwin-16.1.0-x86_64-64bit") == "darwin-16.1.0-x86_64-64bit"
    requires h.normalize("3.5") == "3.5"
    requires version != [] && !IsSpace(version[0]) && !IsSpace(version[|version| - 1])
    ensures Check(Request(Some(AGENT_TOKEN), Some(ClientBody(rawName, version)), address), h)
         == Ok(CheckRecord(name, version, "darwin-16.1.0-x86_64-64bit", "3.5", address),
               !h.standardRelease(version))
  {
    ClientRequestAdmitted(h, rawName, name, version, address);
    AdmitCleanValues(name, version, "darwin-16.1.0-x86_64-64bit", "3.5", address, h);
  }

  /** A client library's request passes the agent and key guards. */
  lemma ClientRequestAdmitted(h: Helpers, rawName: string, name: string, version: string, address: string)
    requires h.normalize(AfterLastDot(rawName)) == name
    ensures Check(Request(Some(AGENT_TOKEN), Some(ClientBody(rawName, version)), address), h)
         == Admit(name, version, "darwin-16.1.0-x86_64-64bit", "3.5", address, h)
  {
    var req := Request(Some(AGENT_TOKEN), Some(ClientBody(rawName, version)), address);
    ClientBodyHasRequiredKeys(rawName, version);
    TokenAccepted();
    CheckAdmits(req, h);
  }

  /** Values that are already clean and not blank are recorded as they are. */
  lemma AdmitCleanValues(name: string, version: string, platform: string, pythonVersion: string,
                         address: string, h: Helpers)
    requires name in ALLOWED_PACKAGES
    requires version != [] && !IsSpace(version[0]) && !IsSpace(version[|version| - 1])
    requires h.normalize(platform) == platform != ""
    requires h.normalize(pythonVersion) == pythonVersion != ""
    ensures Admit(name, version, platform, pythonVersion, address, h)
         == Ok(CheckRecord(name, version, platform, pythonVersion, address), !h.standardRelease(version))
  {
    StripLeavesTrimmed(version);
    AdmitOkIffClean(name, version, platform, pythonVersion, address, h);
  }

  /** The library's own User-Agent passes the agent guard. */
  lemma TokenAccepted()
    ensures Contains(AGENT_TOKEN, AGENT_TOKEN)
  {
  }

  /** A client body holds every required key, with the values it was built from. */
  lemma ClientBodyHasRequiredKeys(rawName: string, version: string)
    ensures var body := ClientBody(rawName, version);
      body != map[] && REQUIRED_KEYS <= body.Keys &&
      body["package_name"] == rawName && body["package_version"] == version &&
      body["platform"] == "darwin-16.1.0-x86_64-64bit" && body["python_version"] == "3.5"
  {
    assert "platform" in ClientBody(rawName, version);
  }

  /**
   * `praw` 3.6.0 sent as the submodule path `resources.lib.modules.praw`
   * is recorded as `praw` and, 3.6.0 being a standard release, answered
   * from the stable channel.  `normalize` is taken to leave these
   * already-clean strings alone.
   */
  lemma SubmodulePathScenario(h: Helpers, address: string)
    requires h.normalize("praw") == "praw"
    requires h.normalize("darwin-16.1.0-x86_64-64bit") == "darwin-16.1.0-x86_64-64bit"
    requires h.normalize("3.5") == "3.5"
    requires h.standardRelease("3.6.0")
    ensures Check(Request(Some(AGENT_TOKEN), Some(ClientBody("resources.lib.modules.praw", "3.6.0")), address), h)
         == Ok(CheckRecord("praw", "3.6.0", "darwin-16.1.0-x86_64-64bit", "3.5", address), false)
  {
    SubmodulePathIsPraw();
    assert "praw" in ALLOWED_PACKAGES;
    assert !IsSpace("3.6.0"[0]) && !IsSpace("3.6.0"[|"3.6.0"| - 1]);
    ClientCheckAccepted(h, "resources.lib.modules.praw", "praw", "3.6.0", address);
  }

  /** The last segment of `resources.lib.modules.praw` is `praw`. */
  lemma SubmodulePathIsPraw()
    ensures AfterLastDot("resources.lib.modules.praw") == "praw"
  {
    var s := "resources.lib.modules.praw";
    assert '.' !in "praw";
    assert |s| == 26;
    assert s[22..] == "praw";
    assert s[21] == '.';
    AfterLastDotUnique(s, "praw");
  }

  /** `praw` 3.0b1, not a standard release, is answered from the pre-release channel. */
  lemma PrereleaseScenario(h: Helpers, address: string)
    requires h.normalize("praw") == "praw"
    requires h.normalize("darwin-16.1.0-x86_64-64bit") == "darwin-16.1.0-x86_64-64bit"
    requires h.normalize("3.5") == "3.5"
    requires !h.standardRelease("3.0b1")
    ensures Check(Request(Some(AGENT_TOKEN), Some(ClientBody("praw", "3.0b1")), address), h)
         == Ok(CheckRecord("praw", "3.0b1", "darwin-16.1.0-x86_64-64bit", "3.5", address), true)
  {
    assert "praw" in ALLOWED_PACKAGES;
    assert !IsSpace("3.0b1"[0]) && !IsSpace("3.0b1"[|"3.0b1"| - 1]);
    assert AfterLastDot("praw") == "praw" by { AfterLastDotUnique("praw", "praw"); }
    ClientCheckAccepted(h, "praw", "praw", "3.0b1", address);
  }
}
