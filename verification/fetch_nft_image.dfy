/**
 * `fetchNFTImage(tokenURI)`: the gateway URL of an NFT's image, read from its IPFS metadata, or
 * the placeholder image whenever anything goes wrong. The network is a parameter.
 */
module FetchNftImage {
  import opened Wrappers
  import opened JsString
  import opened IpfsGateway
  import opened NftMetadata

  const Placeholder: string := "/nft-placeholder.jpg"

  /** The URI check, the cid check, then what fetching the gateway URL gave. */
  function FetchNFTImage(uri: string, fetch: string -> Fetched): string {
    if !IsIpfsUri(uri) then Placeholder
    else
      var cidAndPath := CidAndPath(uri);
      if Cid(cidAndPath) == "" then Placeholder
      else ImageFromResponse(fetch(GatewayUrl(cidAndPath)))
  }

  /**
   * A failed fetch, a non-ok status, a body `response.json()` rejects, a value that is not an
   * object or has no truthy `image`: the placeholder. A truthy `image` that is not a string has
   * no `replace` method; the TypeError is caught and gives the placeholder too.
   */
  function ImageFromResponse(fetched: Fetched): string {
    match fetched
    case NetworkError => Placeholder
    case Response(status, body) =>
      if !Ok(status) then Placeholder
      else match body
        case Malformed => Placeholder
        case Parsed(metadata) =>
          var image := Prop(metadata, "image");
          if BadStructure(metadata) || image.None? || !Truthy(image.value) then Placeholder
          else match image.value
            case JString(address) => ImageGatewayUrl(address)
            case _ => Placeholder
  }

  /** The metadata of a successful fetch holds a non-empty string `image`. */
  predicate HasImage(fetched: Fetched) {
    fetched.Response? && Ok(fetched.status) && fetched.body.Parsed? &&
    !BadStructure(fetched.body.value) &&
    Prop(fetched.body.value, "image").Some? && Prop(fetched.body.value, "image").value.JString? &&
    Prop(fetched.body.value, "image").value.s != ""
  }

  /**
   * The result is the rewritten image address exactly when the gateway URL was fetched and its
   * metadata holds a non-empty string `image`; in every other case it is the placeholder.
   */
  lemma {:induction false} FetchNFTImageCases(uri: string, fetch: string -> Fetched)
    ensures var r := FetchNFTImage(uri, fetch);
      (r != Placeholder <==> RequestUrl(uri).Some? && HasImage(fetch(RequestUrl(uri).value))) &&
      (r != Placeholder ==>
        r == ImageGatewayUrl(Prop(fetch(RequestUrl(uri).value).body.value, "image").value.s))
  {
    if RequestUrl(uri).Some? && HasImage(fetch(RequestUrl(uri).value)) {
      var address := Prop(fetch(RequestUrl(uri).value).body.value, "image").value.s;
      PlaceholderIsNoImageUrl(address);
    }
  }

  /** The placeholder starts with "/", a rewritten address with "https://": they never coincide. */
  lemma {:induction false} PlaceholderIsNoImageUrl(address: string)
    ensures ImageGatewayUrl(address) != Placeholder
  {
    ImageUrlShape(address);
    assert ImageGatewayUrl(address)[0] == 'h';
  }

  /** The result is the placeholder or an "https://" URL holding ".ipfs.w3s.link/". */
  lemma {:induction false} FetchNFTImageShape(uri: string, fetch: string -> Fetched)
    ensures var r := FetchNFTImage(uri, fetch);
      r == Placeholder || (StartsWith(r, Https) && exists k :: OccursAt(r, GatewayHost, k))
  {
    FetchNFTImageCases(uri, fetch);
    if FetchNFTImage(uri, fetch) != Placeholder {
      ImageUrlShape(Prop(fetch(RequestUrl(uri).value).body.value, "image").value.s);
    }
  }

  /** An "ipfs://<cid>/<path>" image is served from `https://<cid>.ipfs.w3s.link/<path>`. */
  lemma {:induction false} FetchNFTImageOfIpfsImage(uri: string, fetch: string -> Fetched, cid: string, path: string)
    requires '/' !in cid
    requires RequestUrl(uri).Some?
    requires var r := fetch(RequestUrl(uri).value);
      r.Response? && Ok(r.status) && r.body.Parsed? && r.body.value.JObject? &&
      Prop(r.body.value, "image") == Some(JString(Scheme + cid + "/" + path))
    ensures FetchNFTImage(uri, fetch) == Https + cid + GatewayHost + path
  {
    var address := Scheme + cid + "/" + path;
    assert address != "";
    assert HasImage(fetch(RequestUrl(uri).value));
    FetchNFTImageCases(uri, fetch);
    IpfsImageUrl(cid, path);
  }

  lemma {:induction false} IpfsImageUrl(cid: string, path: string)
    requires '/' !in cid
    ensures ImageGatewayUrl(Scheme + cid + "/" + path) == Https + cid + GatewayHost + path
  {
    var address := Scheme + cid + "/" + path;
    assert StartsWith(address, Scheme) && address[|Scheme|..] == cid + "/" + path;
    ImageUrlOfIpfs(address);
    GatewayUrlOfParts(cid, path);
  }
}
