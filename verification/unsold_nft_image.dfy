/**
 * The UnsoldNFTImage component: a separate copy of NFTImage with the same state and the same
 * decision ladder (only its console logging differs), shown for NFTs that are not sold yet.
 */
module UnsoldNftImage {
  import opened IpfsGateway
  import opened NftMetadata
  import FetchNftImage
  import opened NftImage

  /** The component's image source state. */
  class UnsoldNftImageView {
    var source: string

    /** `useState("/nft-placeholder.jpg")`. */
    constructor()
      ensures source == FetchNftImage.Placeholder
    {
      source := FetchNftImage.Placeholder;
    }

    /** The effect on a token URI change: reset to the placeholder; a fetch is scheduled for an IPFS URI. */
    method UriChanged(uri: string) returns (scheduled: bool)
      modifies this
      ensures scheduled == IsIpfsUri(uri)
      ensures source == FetchNftImage.Placeholder
    {
      source := FetchNftImage.Placeholder;
      if !IsIpfsUri(uri) {
        source := FetchNftImage.Placeholder;
        scheduled := false;
      } else {
        scheduled := true;
      }
    }

    /** The scheduled fetch finishes: one write of the ladder's result, never the dead `else`. */
    method MetadataFetched(uri: string, fetch: string -> Fetched)
      requires IsIpfsUri(uri)
      modifies this
      ensures source == ImageSource(ResolveImage(uri, fetch))
      ensures ResolveImage(uri, fetch) != EmptyUrl
    {
      EmptyUrlUnreachable(uri, fetch);
      source := ImageSource(ResolveImage(uri, fetch));
    }
  }
}
