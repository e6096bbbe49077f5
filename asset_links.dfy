/** Fetching a domain's Digital Asset Links statement list and finding the
    statement that authorizes the app (`get_dal` and
    `get_relation_list_in_dal`). The network, `urlparse` and `json.loads` are
    not modelled: they are the fields of a `Network` value. */
module AssetLinks {
  import opened Wrappers
  import opened Strings

  const DalPath := "/.well-known/assetlinks.json"
  const AndroidApp := "android_app"
  const JsonMediaType := "application/json"

  /** `requests` keeps response headers in a case-insensitive dictionary; the
      model keys `headers` by lower-cased name, so `'Content-Type'` is looked
      up as this key. */
  const ContentTypeKey := "content-type"

  // ---------------------------------------------------------------------------
  // The statement list, as a typed view of the parsed JSON
  // ---------------------------------------------------------------------------

  /** A statement's `target`; a key the JSON object lacks is `None`. */
  datatype Target = Target(
    namespace: Option<string>,
    packageName: Option<string>,
    sha256CertFingerprints: Option<seq<string>>)

  /** One statement of the list: an optional `target` and an optional `relation`. */
  datatype Statement = Statement(target: Option<Target>, relation: Option<seq<string>>)

  // ---------------------------------------------------------------------------
  // The environment
  // ---------------------------------------------------------------------------

  /** What `requests.get` yields: a response, or an exception it raises. */
  datatype HttpOutcome =
    | Response(status: int, headers: map<string, string>, text: string)
    | RequestRaised

  /** `urlparse(url).netloc`, `requests.get(url)` and `json.loads(text)`
      (`None` when it raises). */
  datatype Network = Network(
    netloc: string -> string,
    get: string -> HttpOutcome,
    parse: string -> Option<seq<Statement>>)

  /** The exceptions `get_relation_list_in_dal` catches. */
  datatype DalError =
    | RequestFailed
    | BadStatus(status: int)
    | NotJsonContent
    | MalformedJson

  // ---------------------------------------------------------------------------
  // get_dal
  // ---------------------------------------------------------------------------

  /** The address of a domain's statement list. */
  function DalUrl(netloc: string): (url: string)
    ensures |url| == 8 + |netloc| + |DalPath|
    ensures url[..8] == "https://"
    ensures url[8..8 + |netloc|] == netloc
    ensures url[8 + |netloc|..] == DalPath
  {
    "https://" + netloc + DalPath
  }

  /** Different domains are asked at different addresses. */
  lemma DalUrlInjective(a: string, b: string)
    requires DalUrl(a) == DalUrl(b)
    ensures a == b
  {
    assert |a| == |b|;
    assert a == DalUrl(a)[8..8 + |a|] == DalUrl(b)[8..8 + |b|] == b;
  }

  /** A response is accepted exactly when its status is 200 and it has a
      Content-Type header containing `application/json`. */
  ghost predicate Accepted(res: HttpOutcome) {
    && res.Response?
    && res.status == 200
    && ContentTypeKey in res.headers
    && exists i :: OccursAt(res.headers[ContentTypeKey], JsonMediaType, i)
  }

  /** `get_dal`: fetch the statement list of the URL's domain, raising on a
      status other than 200 (checked first) or a content type that is not JSON. */
  function GetDal(url: string, net: Network): (r: Result<string, DalError>)
    ensures r.Success? <==> Accepted(net.get(DalUrl(net.netloc(url))))
    ensures r.Success? ==> r.value == net.get(DalUrl(net.netloc(url))).text
    ensures net.get(DalUrl(net.netloc(url))).Response? && net.get(DalUrl(net.netloc(url))).status != 200
            ==> r == Failure(BadStatus(net.get(DalUrl(net.netloc(url))).status))
  {
    var res := net.get(DalUrl(net.netloc(url)));
    if res.RequestRaised? then Failure(RequestFailed)
    else if res.status != 200 then Failure(BadStatus(res.status))
    else if ContentTypeKey !in res.headers || !Contains(res.headers[ContentTypeKey], JsonMediaType) then
      Failure(NotJsonContent)
    else Success(res.text)
  }

  // ---------------------------------------------------------------------------
  // get_relation_list_in_dal
  // ---------------------------------------------------------------------------

  /** A statement authorizes the app when its target is an Android app with
      this package name and a certificate fingerprint equal to `sha256`. */
  predicate Authorizes(s: Statement, sha256: string, package: string) {
    && s.target.Some?
    && s.target.value.namespace == Some(AndroidApp)
    && s.target.value.packageName == Some(package)
    && s.target.value.sha256CertFingerprints.Some?
    && sha256 in s.target.value.sha256CertFingerprints.value
  }

  /** The relations a matching statement grants: its `relation` list, or none. */
  function Granted(s: Statement): seq<string> {
    if s.relation.Some? then s.relation.value else []
  }

  /** The index of the first statement, in list order, that authorizes the app. */
  function FirstAuthorizing(stmts: seq<Statement>, sha256: string, package: string): (r: Option<nat>)
    ensures r.Some? ==> r.value < |stmts| && Authorizes(stmts[r.value], sha256, package)
    ensures r.Some? ==> forall j :: 0 <= j < r.value ==> !Authorizes(stmts[j], sha256, package)
    ensures r.None? ==> forall j :: 0 <= j < |stmts| ==> !Authorizes(stmts[j], sha256, package)
  {
    if stmts == [] then None
    else if Authorizes(stmts[0], sha256, package) then Some(0)
    else
      match FirstAuthorizing(stmts[1..], sha256, package)
      case None => None
      case Some(k) => Some(k + 1)
  }

  /** What the matcher found, keeping apart the two reasons for Python's `None`. */
  datatype Lookup =
    | Authorized(relations: seq<string>)
    | NotAuthorized
    | LookupFailed(error: DalError)

  /** What `get_relation_list_in_dal` returns: the relations, or `None` for
      both "not authorized" and "could not fetch or parse". */
  function RelationList(l: Lookup): Option<seq<string>> {
    if l.Authorized? then Some(l.relations) else None
  }

  /** The lookup, as a definition. */
  function DalLookup(url: string, sha256: string, package: string, net: Network): (r: Lookup)
    ensures r.LookupFailed? <==> GetDal(url, net).Failure? || net.parse(GetDal(url, net).value).None?
  {
    match GetDal(url, net)
    case Failure(e) => LookupFailed(e)
    case Success(text) =>
      match net.parse(text)
      case None => LookupFailed(MalformedJson)
      case Some(stmts) =>
        match FirstAuthorizing(stmts, sha256, package)
        case None => NotAuthorized
        case Some(i) => Authorized(Granted(stmts[i]))
  }

  /** Once the file is fetched and parsed, the answer is decided by the first
      statement that authorizes the app: its relations, or none at all when
      no statement does. */
  lemma LookupAnswer(url: string, sha256: string, package: string, net: Network, stmts: seq<Statement>)
    requires GetDal(url, net).Success? && net.parse(GetDal(url, net).value) == Some(stmts)
    ensures FirstAuthorizing(stmts, sha256, package).None? ==>
              DalLookup(url, sha256, package, net) == NotAuthorized
    ensures forall i :: FirstAuthorizing(stmts, sha256, package) == Some(i) ==>
              RelationList(DalLookup(url, sha256, package, net)) == Some(Granted(stmts[i]))
  {
  }

  /** `get_relation_list_in_dal`: fetch and parse the list, then scan the
      statements in order, skipping those whose target is missing or names
      another namespace or package, and return the relations of the first
      whose fingerprints include `sha256`. A caught exception is reported in
      the result instead of being printed. */
  method GetRelationListInDal(url: string, sha256: string, package: string, net: Network)
    returns (r: Lookup)
    ensures r == DalLookup(url, sha256, package, net)
  {
    var dal := GetDal(url, net);
    if dal.Failure? {
      return LookupFailed(dal.error);
    }
    var parsed := net.parse(dal.value);
    if parsed.None? {
      return LookupFailed(MalformedJson);
    }
    var dalJson := parsed.value;
    var i := 0;
    while i < |dalJson|
      invariant 0 <= i <= |dalJson|
      invariant forall j :: 0 <= j < i ==> !Authorizes(dalJson[j], sha256, package)
    {
      var entry := dalJson[i];
      if entry.target.Some? {
        var target := entry.target.value;
        if target.namespace == Some(AndroidApp) && target.packageName == Some(package)
           && target.sha256CertFingerprints.Some?
        {
          var registeredCerts := target.sha256CertFingerprints.value;
          var k := 0;
          while k < |registeredCerts|
            invariant 0 <= k <= |registeredCerts|
            invariant sha256 !in registeredCerts[..k]
          {
            if registeredCerts[k] == sha256 {
              assert Authorizes(entry, sha256, package);
              return Authorized(Granted(entry));
            }
            k := k + 1;
          }
          assert registeredCerts[..k] == registeredCerts;
        }
      }
      i := i + 1;
    }
    return NotAuthorized;
  }

  // ---------------------------------------------------------------------------
  // Properties of the lookup
  // ---------------------------------------------------------------------------

  /** The app is authorized exactly when the list was fetched and parsed and
      some statement authorizes it; any error or no such statement gives `None`. */
  lemma RelationListSomeIff(url: string, sha256: string, package: string, net: Network)
    ensures RelationList(DalLookup(url, sha256, package, net)).Some? <==>
            && GetDal(url, net).Success?
            && net.parse(GetDal(url, net).value).Some?
            && exists j :: 0 <= j < |net.parse(GetDal(url, net).value).value|
                           && Authorizes(net.parse(GetDal(url, net).value).value[j], sha256, package)
  {
  }

  /** The first authorizing statement decides: its relations are returned,
      whatever the statements after it say. */
  lemma {:induction false} FirstMatchDecides(stmts: seq<Statement>, i: nat, rest: seq<Statement>,
                                             sha256: string, package: string)
    requires i < |stmts| && Authorizes(stmts[i], sha256, package)
    requires forall j :: 0 <= j < i ==> !Authorizes(stmts[j], sha256, package)
    ensures FirstAuthorizing(stmts + rest, sha256, package) == Some(i)
    ensures FirstAuthorizing(stmts[..i + 1], sha256, package) == Some(i)
  {
    var whole := stmts + rest;
    assert whole[i] == stmts[i];
    assert forall j :: 0 <= j < i ==> whole[j] == stmts[j];
    var prefix := stmts[..i + 1];
    assert prefix[i] == stmts[i];
    assert forall j :: 0 <= j < i ==> prefix[j] == stmts[j];
  }

  /** A statement that does not authorize the app (no target, no namespace or
      another one, no package name or another one, no fingerprint list, or a
      list without `sha256`) is passed over. */
  lemma {:induction false} NonMatchingSkipped(s: Statement, rest: seq<Statement>, sha256: string, package: string)
    requires !Authorizes(s, sha256, package)
    ensures FirstAuthorizing([s] + rest, sha256, package)
            == match FirstAuthorizing(rest, sha256, package)
               case None => None
               case Some(k) => Some(k + 1)
  {
    assert ([s] + rest)[1..] == rest;
  }

  /** A matching statement without a `relation` key yields the empty list,
      which is not the "no match" result. */
  lemma MissingRelationIsEmpty(url: string, sha256: string, package: string, net: Network,
                                stmts: seq<Statement>, i: nat)
    requires GetDal(url, net).Success? && net.parse(GetDal(url, net).value) == Some(stmts)
    requires FirstAuthorizing(stmts, sha256, package) == Some(i) && stmts[i].relation.None?
    ensures RelationList(DalLookup(url, sha256, package, net)) == Some([])
  {
  }

  /** A rejected fetch (a raised request, a status other than 200, a missing
      or non-JSON content type) never propagates: the matcher returns `None`. */
  lemma FetchErrorGivesNone(url: string, sha256: string, package: string, net: Network)
    requires !Accepted(net.get(DalUrl(net.netloc(url))))
    ensures DalLookup(url, sha256, package, net).LookupFailed?
    ensures RelationList(DalLookup(url, sha256, package, net)) == None
  {
  }
}
