/**
 * The NFTImage component: its image source state, reset to the placeholder on every token URI
 * change and then written once by the metadata fetch. Unlike `fetchNFTImage`, it writes the
 * error texts themselves into the image source, and it rewrites any string `image`, even "".
 */
module NftImage {
  import opened Wrappers
  import opened JsString
  import opened IpfsGateway
  import opened NftMetadata
  import FetchNftName
  import FetchNftImage

  /** Which step of the component's ladder decided the image source. */
  datatype ImageOutcome =
    | NoIpfsUri
    | NoCid
    | StatusError(status: nat)
    | BadJson
    | NoObject
    | Image(url: string)
    | EmptyUrl
    | Crashed

  /** The URI check, the cid check, then what fetching the gateway URL gave. */
  function ResolveImage(uri: string, fetch: string -> Fetched): ImageOutcome {
    if !IsIpfsUri(uri) then NoIpfsUri
    else
      var cidAndPath := CidAndPath(uri);
      if Cid(cidAndPath) == "" then NoCid
      else ImageOutcomeOf(fetch(GatewayUrl(cidAndPath)))
  }

  /**
   * Status, parse and structure as in the name ladder; then `metadata?.image.replace(...)`,
   * which throws unless `image` is a string, and the `if (imageUrl)` test.
   */
  function ImageOutcomeOf(fetched: Fetched): ImageOutcome {
    match fetched
    case NetworkError => Crashed
    case Response(status, body) =>
      if !Ok(status) then StatusError(status)
      else match body
        case Malformed => BadJson
        case Parsed(metadata) =>
          if BadStructure(metadata) then NoObject
          else match Prop(metadata, "image")
            case Some(JString(address)) =>
              var url := ImageGatewayUrl(address);
              if url != "" then Image(url) else EmptyUrl
            case _ => Crashed
  }

  /** The image source written for each outcome. */
  function ImageSource(outcome: ImageOutcome): string {
    match outcome
    case NoIpfsUri => FetchNftImage.Placeholder
    case NoCid => "Invalid URI format"
    case StatusError(status) => FetchNftName.HttpErrorText(status)
    case BadJson => "Invalid metadata format"
    case NoObject => "Invalid metadata structure"
    case Image(url) => url
    case EmptyUrl => FetchNftImage.Placeholder
    case Crashed => FetchNftImage.Placeholder
  }

  /** The `else` after `if (imageUrl)` is never taken: the rewritten address is never empty. */
  lemma {:induction false} EmptyUrlUnreachable(uri: string, fetch: string -> Fetched)
    ensures ResolveImage(uri, fetch) != EmptyUrl
  {
    if RequestUrl(uri).Some? {
      var r := fetch(RequestUrl(uri).value);
      if r.Response? && r.body.Parsed? {
        var image := Prop(r.body.value, "image");
        if image.Some? && image.value.JString? {
          ImageUrlShape(image.value.s);
        }
      }
    }
  }

  /** Up to the metadata check the component takes the same steps as the name ladder. */
  lemma {:induction false} LadderMatchesNameLadder(uri: string, fetch: string -> Fetched)
    ensures var o := ResolveImage(uri, fetch); var n := FetchNftName.Resolve(uri, fetch);
      (o == NoIpfsUri <==> n == FetchNftName.NotIpfs) &&
      (o == NoCid <==> n == FetchNftName.EmptyCid) &&
      (o.StatusError? <==> n.HttpError?) &&
      (o.StatusError? ==> o.status == n.status) &&
      (o == BadJson <==> n == FetchNftName.Unparseable) &&
      (o == NoObject <==> n == FetchNftName.NotAnObject)
  {
  }

  /** A missing or non-string `image` makes `replace` throw; the catch writes the placeholder. */
  lemma {:induction false} MissingImageGivesPlaceholder(uri: string, fetch: string -> Fetched)
    requires RequestUrl(uri).Some?
    requires var r := fetch(RequestUrl(uri).value);
      r.Response? && Ok(r.status) && r.body.Parsed? && !BadStructure(r.body.value) &&
      (Prop(r.body.value, "image").None? || !Prop(r.body.value, "image").value.JString?)
    ensures ImageSource(ResolveImage(uri, fetch)) == FetchNftImage.Placeholder
  {
  }

  /**
   * When `fetchNFTImage` finds an image, the component shows the same URL; on the error steps
   * before the image is read, the helper shows the placeholder while the component writes an
   * error text as the image source.
   */
  lemma {:induction false} ComponentMatchesHelper(uri: string, fetch: string -> Fetched)
    ensures var helper := FetchNftImage.FetchNFTImage(uri, fetch);
      var o := ResolveImage(uri, fetch);
      (helper != FetchNftImage.Placeholder ==> ImageSource(o) == helper) &&
      (o.NoCid? || o.StatusError? || o.BadJson? || o.NoObject? ==>
        helper == FetchNftImage.Placeholder && ImageSource(o) != FetchNftImage.Placeholder)
  {
    FetchNftImage.FetchNFTImageCases(uri, fetch);
    var o := ResolveImage(uri, fetch);
    if o.StatusError? {
      assert ImageSource(o)[0] == 'E';
    }
  }

  /**
   * An empty string `image` is where the copies part: the helper treats it as missing, the
   * component rewrites it to the bare gateway host.
   */
  lemma {:induction false} EmptyImageDiffers(uri: string, fetch: string -> Fetched)
    requires RequestUrl(uri).Some?
    requires var r := fetch(RequestUrl(uri).value);
      r.Response? && Ok(r.status) && r.body.Parsed? && r.body.value.JObject? &&
      Prop(r.body.value, "image") == Some(JString(""))
    ensures FetchNftImage.FetchNFTImage(uri, fetch) == FetchNftImage.Placeholder
    ensures ImageSource(ResolveImage(uri, fetch)) == Https + GatewayHost
  {
    EmptyImageUrl();
  }

  lemma {:induction false} EmptyImageUrl()
    ensures ImageGatewayUrl("") == Https + GatewayHost
  {
    IndexOfCharAbsent("", '/');
    SplitHeadRest("", '/');
    assert RemoveFirst("", Scheme) == "";
  }

  /** The component's image source state. */
  class NftImageView {
    var source: string

    /** `useState("/nft-placeholder.jpg")`. */
    constructor()
      ensures source == FetchNftImage.Placeholder
    {
      source := FetchNftImage.Placeholder;
    }

    /**
     * The effect on a token URI change: reset to the placeholder, which a non-IPFS URI keeps;
     * the result says whether a fetch was scheduled.
     */
    method UriChanged(uri: string) returns (scheduled: bool)
      modifies this
      ensures scheduled == IsIpfsUri(uri)
      ensures source == FetchNftImage.Placeholder
    {
      source := FetchNftImage.Placeholder;
      if !IsIpfsUri(uri) {
        source := FetchNftImage.Placeholder;
        scheduled := false;
      } else {
        scheduled := true;
      }
    }

    /** The scheduled fetch finishes: one write of the ladder's result. */
    method MetadataFetched(uri: string, fetch: string -> Fetched)
      requires IsIpfsUri(uri)
      modifies this
      ensures source == ImageSource(ResolveImage(uri, fetch))
    {
      source := ImageSource(ResolveImage(uri, fetch));
    }
  }
}
