/**
 * `fetchNFTName(tokenURI)`: the display name of an NFT, read from its IPFS metadata through the
 * w3s.link gateway. The network is a parameter: `fetch` maps a URL to what fetching it gives.
 * The same ladder, with other fallback texts, runs inside the NFTName component.
 */
module FetchNftName {
  import opened Wrappers
  import opened Digits
  import opened IpfsGateway
  import opened NftMetadata

  /** Which step of the ladder decided the name. */
  datatype NameOutcome =
    | NotIpfs
    | EmptyCid
    | HttpError(status: nat)
    | Unparseable
    | NotAnObject
    | Picked(value: Json)
    | Unnamed
    | Failed

  /** The ladder: URI check, cid check, then what fetching the gateway URL gave. */
  function Resolve(uri: string, fetch: string -> Fetched): NameOutcome {
    if !IsIpfsUri(uri) then NotIpfs
    else
      var cidAndPath := CidAndPath(uri);
      if Cid(cidAndPath) == "" then EmptyCid
      else FromResponse(fetch(GatewayUrl(cidAndPath)))
  }

  /** Status, parse, structure, then the name priority; anything thrown is an error. */
  function FromResponse(fetched: Fetched): NameOutcome {
    match fetched
    case NetworkError => Failed
    case Response(status, body) =>
      if !Ok(status) then HttpError(status)
      else match body
        case Malformed => Unparseable
        case Parsed(metadata) =>
          if BadStructure(metadata) then NotAnObject
          else match ChooseName(metadata)
            case Throws => Failed
            case Returns(Vehicle(value)) => Picked(value)
            case Returns(Named(name)) => Picked(name)
            case Returns(NoName) => Unnamed
  }

  /** `Error: ${status}`. */
  function HttpErrorText(status: nat): (r: string)
    ensures |r| > 7 && r[..7] == "Error: " && AllDigits(r[7..]) && DigitsValue(r[7..]) == status
  {
    var digits := NatToString(status);
    assert ("Error: " + digits)[7..] == digits;
    "Error: " + digits
  }

  /** The text shown for each outcome, with the two fallbacks that differ between the copies. */
  function NameText(outcome: NameOutcome, unknown: string, failed: string): Json {
    match outcome
    case NotIpfs => JString("Waiting for NFT data...")
    case EmptyCid => JString("Invalid URI format")
    case HttpError(status) => JString(HttpErrorText(status))
    case Unparseable => JString("Invalid metadata format")
    case NotAnObject => JString("Invalid metadata structure")
    case Picked(value) => value
    case Unnamed => JString(unknown)
    case Failed => JString(failed)
  }

  /** What `fetchNFTName` resolves to. */
  function FetchNFTName(uri: string, fetch: string -> Fetched): Json {
    NameText(Resolve(uri, fetch), "Unknown NFT", "Error loading NFT")
  }

  /** Before any fetch: a URI that is not an IPFS URI, and one whose cid (the text after "ipfs://") is empty or starts with "/". */
  lemma {:induction false} ResolveUriReasons(uri: string, fetch: string -> Fetched)
    ensures var o := Resolve(uri, fetch);
      (o == NotIpfs <==> !IsIpfsUri(uri)) &&
      (o == EmptyCid <==> IsIpfsUri(uri) && (|uri| == |Scheme| || uri[|Scheme|] == '/')) &&
      (RequestUrl(uri).Some? <==> o != NotIpfs && o != EmptyCid)
  {
    if IsIpfsUri(uri) {
      TokenCidAndPath(uri);
      CidEmpty(uri[|Scheme|..]);
    }
  }

  /** After the fetch of the gateway URL: a non-ok status, an unparseable body, a value that is not an object. */
  lemma {:induction false} ResolveResponseReasons(uri: string, fetch: string -> Fetched)
    requires RequestUrl(uri).Some?
    ensures var o := Resolve(uri, fetch);
      var r := fetch(RequestUrl(uri).value);
      (o.HttpError? <==> r.Response? && !Ok(r.status)) &&
      (o.HttpError? ==> o.status == r.status) &&
      (o == Unparseable <==> r.Response? && Ok(r.status) && r.body.Malformed?) &&
      (o == NotAnObject <==> r.Response? && Ok(r.status) && r.body.Parsed? && BadStructure(r.body.value))
  {
  }

  /**
   * With a well-formed object fetched, the name comes from the metadata: the first "Vehicle"
   * attribute's truthy value, else a truthy `name`; a failed attribute look-up is an error.
   */
  lemma {:induction false} ResolveFetched(uri: string, fetch: string -> Fetched, status: nat, metadata: Json)
    requires RequestUrl(uri).Some? && fetch(RequestUrl(uri).value) == Response(status, Parsed(metadata))
    requires Ok(status) && !BadStructure(metadata)
    ensures var o := Resolve(uri, fetch);
      (o == Failed <==> ChooseName(metadata).Throws?) &&
      (o == Unnamed <==> ChooseName(metadata) == Returns(NoName)) &&
      (o.Picked? <==> ChooseName(metadata).Returns? && !ChooseName(metadata).value.NoName?) &&
      (o.Picked? ==> Truthy(o.value))
  {
  }

  /** Only the gateway URL is fetched: fetches that agree on it give the same outcome, and no fetch happens without one. */
  lemma {:induction false} ResolveReadsOnlyRequestUrl(uri: string, f: string -> Fetched, g: string -> Fetched)
    requires RequestUrl(uri).None? || f(RequestUrl(uri).value) == g(RequestUrl(uri).value)
    ensures Resolve(uri, f) == Resolve(uri, g)
  {
  }

  /** `fetchNFTName` always resolves to a truthy value: a fixed message or a truthy name. */
  lemma {:induction false} FetchNFTNameTruthy(uri: string, fetch: string -> Fetched)
    ensures Truthy(FetchNFTName(uri, fetch))
  {
    match Resolve(uri, fetch)
    case HttpError(status) =>
      assert |HttpErrorText(status)| > 7;
    case Picked(value) =>
      var r := fetch(RequestUrl(uri).value);
      ResolveFetched(uri, fetch, r.status, r.body.value);
    case _ =>
  }

  /** The first "Vehicle" attribute with a truthy value is the name, whatever `name` says. */
  lemma {:induction false} FetchNFTNameVehicle(uri: string, fetch: string -> Fetched, status: nat,
                                              fields: map<string, Json>, before: seq<Json>, attr: Json, after: seq<Json>)
    requires RequestUrl(uri).Some? && fetch(RequestUrl(uri).value) == Response(status, Parsed(JObject(fields)))
    requires Ok(status)
    requires "attributes" in fields && fields["attributes"] == JArray(before + [attr] + after)
    requires forall j :: 0 <= j < |before| ==> before[j] != JNull && !IsVehicle(before[j])
    requires IsVehicle(attr) && Prop(attr, "value").Some? && Truthy(Prop(attr, "value").value)
    ensures FetchNFTName(uri, fetch) == Prop(attr, "value").value
  {
    VehicleWins(fields, before, attr, after);
  }
}
